/** Identifiers and small types shared by the relay and the client. */
module Ids {

  // Identifiers are opaque and totally ordered; 0 stands for the empty string.
  type AccountId = nat
  type DeviceId = nat
  type LogicalId = nat
  type EnvelopeId = nat
  type Ciphertext = seq<bv8>

  const EMPTY_ID: nat := 0

  datatype Option<+T> = None | Some(value: T)

  // SHA-256 of the domain tag and the ordered pair, taken as an ideal (injective) digest.
  datatype Conversation = Conversation(first: AccountId, second: AccountId)

  function ConversationOf(a: AccountId, b: AccountId): Conversation {
    if a <= b then Conversation(a, b) else Conversation(b, a)
  }

  /** A conversation id determines exactly the unordered pair of its members. */
  lemma ConversationIdentifiesPair(a: AccountId, b: AccountId, c: AccountId, d: AccountId)
    ensures ConversationOf(a, b) == ConversationOf(c, d) <==> {a, b} == {c, d}
  {
    if {a, b} == {c, d} {
      assert a in {c, d} && b in {c, d} && c in {a, b} && d in {a, b};
    }
  }

  // What an encrypted envelope carries on the wire.
  datatype Wire = Wire(
    envelopeId: EnvelopeId,
    logicalId: LogicalId,
    conversation: Conversation,
    recipientAccount: AccountId,
    recipientDevice: DeviceId,
    ciphertext: Ciphertext,
    messageType: nat,
    sentAt: int)
}
