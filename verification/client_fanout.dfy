/** Which fan-outs of the client the relay's checks let through, and how stored rows look to a client. */
module ClientFanout {
  import opened Ids
  import opened RelayTables
  import opened RelayIntegrity
  import opened LocalTables
  import opened LocalIntegrity

  // One encrypted copy of a payload: for which device of which account.
  datatype Copy = Copy(account: AccountId, device: DeviceId, envelopeId: EnvelopeId, ciphertext: Ciphertext)

  /** The envelopes of one logical message in the conversation of `me` with `peer`. */
  function FanOut(me: AccountId, peer: AccountId, id: LogicalId, sentAt: int, copies: seq<Copy>): (frame: seq<Wire>)
    ensures |frame| == |copies|
    ensures forall i :: 0 <= i < |copies| ==>
      frame[i] == Wire(copies[i].envelopeId, id, ConversationOf(me, peer), copies[i].account, copies[i].device,
                       copies[i].ciphertext, 0, sentAt)
  {
    if copies == [] then []
    else
      [Wire(copies[0].envelopeId, id, ConversationOf(me, peer), copies[0].account, copies[0].device,
            copies[0].ciphertext, 0, sentAt)]
      + FanOut(me, peer, id, sentAt, copies[1..])
  }

  predicate WellFormed(id: LogicalId, copies: seq<Copy>) {
    id != EMPTY_ID && 0 < |copies| <= MAX_BATCH
    && forall c :: c in copies ==> 0 < |c.ciphertext| <= MAX_FRAME_BYTES
  }

  lemma {:induction false} OnlyOwnDevices(me: AccountId, envelopes: seq<Wire>)
    requires forall e :: e in envelopes ==> e.recipientAccount == me
    ensures PeerOf(me, envelopes) == me
  {
    if envelopes == [] {
    } else {
      OnlyOwnDevices(me, envelopes[1..]);
    }
  }

  lemma {:induction false} PeerIsFound(me: AccountId, peer: AccountId, envelopes: seq<Wire>)
    requires peer != me && forall e :: e in envelopes ==> e.recipientAccount == me || e.recipientAccount == peer
    requires exists e :: e in envelopes && e.recipientAccount == peer
    ensures PeerOf(me, envelopes) == peer
  {
    var e :| e in envelopes && e.recipientAccount == peer;
    if envelopes[0].recipientAccount == me {
      assert e in envelopes[1..];
      PeerIsFound(me, peer, envelopes[1..]);
    }
  }

  /**
   A fan-out to devices of this account and of the peer passes the relay's checks if and only if at
   least one copy goes to the peer (or the conversation is with oneself).
   */
  lemma FanOutPassesExactly(me: AccountId, peer: AccountId, id: LogicalId, sentAt: int, copies: seq<Copy>)
    requires WellFormed(id, copies)
    requires forall c :: c in copies ==> c.account == me || c.account == peer
    ensures CheckBatch(me, FanOut(me, peer, id, sentAt, copies)).None?
       <==> peer == me || exists c :: c in copies && c.account == peer
  {
    var frame := FanOut(me, peer, id, sentAt, copies);
    assert copies[0] in copies;
    forall e | e in frame ensures exists c :: c in copies && e.recipientAccount == c.account && e.logicalId == id
                                           && e.ciphertext == c.ciphertext && e.conversation == ConversationOf(me, peer)
    {
      var i :| 0 <= i < |frame| && frame[i] == e;
      assert copies[i] in copies;
    }
    if exists c :: c in copies && c.account == peer {
      var c :| c in copies && c.account == peer;
      var i :| 0 <= i < |copies| && copies[i] == c;
      assert frame[i] in frame && frame[i].recipientAccount == peer;
      if peer != me {
        PeerIsFound(me, peer, frame);
      } else {
        OnlyOwnDevices(me, frame);
      }
      AllValid(me, peer, frame);
    } else {
      OnlyOwnDevices(me, frame);
      assert frame[0] in frame;
      ConversationIdentifiesPair(me, peer, me, me);
      assert peer != me ==> peer in {me, peer} && peer !in {me, me};
      assert peer != me ==> !ValidWire(frame[0], ConversationOf(me, me));
    }
  }

  lemma AllValid(me: AccountId, peer: AccountId, frame: seq<Wire>)
    requires PeerOf(me, frame) == peer && 0 < |frame| <= MAX_BATCH && frame[0].logicalId != EMPTY_ID
    requires forall e :: e in frame ==>
      && (e.recipientAccount == me || e.recipientAccount == peer) && e.logicalId == frame[0].logicalId
      && 0 < |e.ciphertext| <= MAX_FRAME_BYTES && e.conversation == ConversationOf(me, peer)
    ensures CheckBatch(me, frame).None?
  {
  }

  /**
   The announcement of a deleted conversation goes to this account's other devices only, under the
   conversation id of the peer: whatever the tables, the relay refuses it.
   */
  lemma DeletionFanOutIsRefused(
    t: Tables, me: AccountId, device: DeviceId, peer: AccountId, id: LogicalId, sentAt: int, copies: seq<Copy>,
    now: int, limits: Limits, freeDisk: nat)
    requires WellFormed(id, copies) && peer != me && forall c :: c in copies ==> c.account == me
    ensures StoreEnvelopes(t, me, device, FanOut(me, peer, id, sentAt, copies), now, limits, freeDisk).Refused?
  {
    FanOutPassesExactly(me, peer, id, sentAt, copies);
  }

  /** A stored row from another account is filed under the conversation with that account. */
  lemma PeerRowsAreAddressed(t: Tables, r: Row, m: Message)
    requires Inv(t) && r in t.rows && r.senderAccount != r.wire.recipientAccount
    requires m.conversation == r.wire.conversation && m.peer == r.senderAccount
    ensures Addressed(r.wire.recipientAccount, m)
  {
    assert RowMatches(t, r);
    assert LogicalMatches(t, t.logical[r.wire.logicalId]);
  }
}
