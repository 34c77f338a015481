/** What each transaction of the client's store does, read off its tables. */
module LocalCommits {
  import opened Ids
  import opened LocalTables
  import Integrity = LocalIntegrity

  /** The message is there: the new one, or the one that was stored under its id. */
  predicate Filed(t: Local, s: Local, id: LogicalId, m: Message) {
    && id in s.messages
    && (id !in t.messages ==> s.messages == t.messages[id := m])
    && (id in t.messages ==> s.messages == t.messages && s.summaries == t.summaries)
  }

  // ----- commits -----

  /** An inbound message is filed and the cursor moved; nothing else but the conversation's summary changes. */
  lemma InboundIsFiled(t: Local, id: LogicalId, m: Message, cursor: nat)
    ensures var s := Commit(t, Inbound(id, m), cursor);
            && s.Some? && Filed(t, s.value, id, m)
            && s.value == t.(messages := s.value.messages, summaries := s.value.summaries, cursor := cursor)
  {
  }

  /** So is one that arrives with a chat request, whose notice is kept under the request's id. */
  lemma RequestIsFiled(t: Local, id: LogicalId, m: Message, requestId: nat, notice: Notice, cursor: nat)
    ensures var s := Commit(t, Unverified(id, m, requestId, notice), cursor);
            && s.Some? && Filed(t, s.value, id, m)
            && s.value.notices == t.notices[requestId := notice]
            && s.value == t.(messages := s.value.messages, summaries := s.value.summaries, notices := s.value.notices,
                             cursor := cursor)
  {
  }

  lemma ControlMovesCursor(t: Local, cursor: nat)
    ensures Commit(t, Control, cursor) == Some(t.(cursor := cursor))
  {
  }

  /** What a deletion leaves: nothing of the conversation, and every other message, draft, summary and frame. */
  ghost predicate Erased(t: Local, s: Local, peer: AccountId, c: Conversation) {
    && (forall id :: id in s.messages <==> id in t.messages && t.messages[id].conversation != c)
    && (forall id :: id in s.messages ==> s.messages[id] == t.messages[id])
    && s.summaries == t.summaries - {c} && s.drafts == t.drafts - {c} && s.contacts == t.contacts - {peer}
    && (forall r :: r in s.notices <==> r in t.notices && (t.notices[r].actor != peer || t.notices[r].kind == Pairing))
    && (forall r :: r in s.notices ==> s.notices[r] == t.notices[r])
    && (forall id :: id in s.outbox <==> id in t.outbox && !(id in t.messages && t.messages[id].conversation == c))
    && (forall id :: id in s.outbox ==> s.outbox[id] == t.outbox[id])
  }

  /** The tombstone of a peer after a deletion: never older, and pending while an announcement is owed. */
  predicate Buried(before: Option<Tombstone>, after: Tombstone, wanted: Tombstone) {
    match before
    case None => after == wanted
    case Some(b) =>
      && after.pending == (b.pending || wanted.pending)
      && after.deletedAt == (if b.deletedAt > wanted.deletedAt then b.deletedAt else wanted.deletedAt)
      && after.username == (if b.deletedAt > wanted.deletedAt then b.username else wanted.username)
      && after.conversation == (if b.deletedAt > wanted.deletedAt then b.conversation else wanted.conversation)
      && after.syncId == (if b.pending || (!wanted.pending && b.deletedAt > wanted.deletedAt) then b.syncId
                          else wanted.syncId)
  }

  function TombstoneOf(t: Local, peer: AccountId): Option<Tombstone> {
    if peer in t.tombstones then Some(t.tombstones[peer]) else None
  }

  ghost predicate Deleted(t: Local, s: Local, peer: AccountId, wanted: Tombstone) {
    && Erased(t, s, peer, wanted.conversation)
    && peer in s.tombstones && Buried(TombstoneOf(t, peer), s.tombstones[peer], wanted)
    && s.tombstones == t.tombstones[peer := s.tombstones[peer]]
    && s.statusCursor == t.statusCursor
  }

  lemma StateIsErased(t: Local, peer: AccountId, c: Conversation)
    ensures Erased(t, DeleteConversationState(t, peer, c), peer, c)
  {
    Integrity.DeletionIsExact(t, peer, c);
  }

  lemma UpsertBuries(tombstones: Tombstones, peer: AccountId, wanted: Tombstone)
    requires Upsert(tombstones, peer, wanted).Some?
    ensures var after := Upsert(tombstones, peer, wanted).value;
            && peer in after && after == tombstones[peer := after[peer]]
            && Buried(if peer in tombstones then Some(tombstones[peer]) else None, after[peer], wanted)
  {
  }

  lemma DeletionErases(
    t: Local, peer: AccountId, username: nat, c: Conversation, syncId: LogicalId, deletedAt: int, cursor: nat)
    requires Commit(t, Deletion(peer, username, c, syncId, deletedAt), cursor).Some?
    ensures var s := Commit(t, Deletion(peer, username, c, syncId, deletedAt), cursor).value;
            Deleted(t, s, peer, Tombstone(username, c, syncId, deletedAt, false)) && s.cursor == cursor
  {
    StateIsErased(t, peer, c);
    UpsertBuries(t.tombstones, peer, Tombstone(username, c, syncId, deletedAt, false));
  }

  lemma EverywhereErases(t: Local, peer: AccountId, username: nat, c: Conversation, syncId: LogicalId, deletedAt: int)
    requires DeleteEverywhere(t, peer, username, c, syncId, deletedAt).Some?
    ensures var s := DeleteEverywhere(t, peer, username, c, syncId, deletedAt).value;
            Deleted(t, s, peer, Tombstone(username, c, syncId, deletedAt, true)) && s.cursor == t.cursor
  {
    StateIsErased(t, peer, c);
    UpsertBuries(t.tombstones, peer, Tombstone(username, c, syncId, deletedAt, true));
  }

  /** What a commit did, for each effect. */
  ghost predicate Took(t: Local, s: Local, e: Effect, cursor: nat) {
    && s.cursor == cursor && s.statusCursor == t.statusCursor
    && match e
       case Inbound(id, m) =>
         Filed(t, s, id, m) && s == t.(messages := s.messages, summaries := s.summaries, cursor := cursor)
       case Unverified(id, m, requestId, notice) =>
         && Filed(t, s, id, m) && s.notices == t.notices[requestId := notice]
         && s == t.(messages := s.messages, summaries := s.summaries, notices := s.notices, cursor := cursor)
       case Deletion(peer, username, c, syncId, deletedAt) =>
         Deleted(t, s, peer, Tombstone(username, c, syncId, deletedAt, false))
       case Control => s == t.(cursor := cursor)
  }

  /** Every successful commit did what its effect asks for, and nothing else. */
  lemma CommitTook(t: Local, e: Effect, cursor: nat)
    requires Commit(t, e, cursor).Some?
    ensures Took(t, Commit(t, e, cursor).value, e, cursor)
  {
    match e
    case Inbound(id, m) => InboundIsFiled(t, id, m, cursor);
    case Unverified(id, m, requestId, notice) => RequestIsFiled(t, id, m, requestId, notice, cursor);
    case Deletion(peer, username, c, syncId, deletedAt) => DeletionErases(t, peer, username, c, syncId, deletedAt, cursor);
    case Control =>
  }

  /** A composed message is filed and its frame queued. */
  lemma OutgoingIsQueued(t: Local, id: LogicalId, m: Message, frame: seq<Wire>)
    ensures var s := CommitOutgoing(t, id, m, frame);
            && Filed(t, s, id, m) && s.outbox == t.outbox[id := frame]
            && s == t.(messages := s.messages, summaries := s.summaries, outbox := s.outbox)
    ensures CommitControlOutgoing(t, id, frame) == t.(outbox := t.outbox[id := frame])
  {
  }

  // ----- status -----

  function Higher(a: Status, b: Status): Status {
    match a
    case Sending => b
    case Sent => if b == Sending then a else b
    case Delivered => if b == Read then b else a
    case Read => a
  }

  /** The message has the higher of both statuses; nothing else but its summary changes. */
  lemma StatusRises(t: Local, id: LogicalId, status: Status)
    ensures var s := UpdateStatus(t, id, status);
            && s.messages == (if id in t.messages
                              then t.messages[id := t.messages[id].(status := Higher(t.messages[id].status, status))]
                              else t.messages)
            && s == t.(messages := s.messages, summaries := s.summaries)
  {
  }

  /** A receipt counts only for a message that this account sent to the peer who reads it. */
  lemma ReceiptIsForSender(t: Local, id: LogicalId, peer: AccountId, status: Status)
    ensures UpdateOutboundStatus(t, id, peer, status)
         == if id in t.messages && t.messages[id].peer == peer && t.messages[id].inbound == false
            then UpdateStatus(t, id, status) else t
  {
  }

  // ----- settling -----

  /** Acceptance takes the frame out of the queue, settles the event and marks the message as sent. */
  lemma AcceptanceCompletes(t: Local, id: LogicalId)
    ensures var s := CompleteOutbox(t, id);
            && s.outbox == t.outbox - {id}
            && s.messages == (if id in t.messages
                              then t.messages[id := t.messages[id].(status := Higher(t.messages[id].status, Sent))]
                              else t.messages)
            && s.tombstones.Keys == t.tombstones.Keys
            && (forall p :: p in t.tombstones ==>
                  s.tombstones[p] == if t.tombstones[p].syncId == id then t.tombstones[p].(pending := false)
                                     else t.tombstones[p])
            && s == t.(outbox := s.outbox, messages := s.messages, summaries := s.summaries, tombstones := s.tombstones)
  {
    StatusRises(MarkSynced(t.(outbox := t.outbox - {id}), id), id, Sent);
  }

  /** Verifying a contact marks it, and forgets that its conversation was deleted. */
  lemma VerificationClears(t: Local, account: AccountId)
    ensures var s := VerifyContact(t, account);
            && s.contacts == (if account in t.contacts then t.contacts[account := Contact(true, false)] else t.contacts)
            && s.tombstones == t.tombstones - {account}
            && (forall id :: id in s.outbox <==>
                  id in t.outbox && !(account in t.tombstones && t.tombstones[account].syncId == id))
            && (forall id :: id in s.outbox ==> s.outbox[id] == t.outbox[id])
            && s == t.(contacts := s.contacts, tombstones := s.tombstones, outbox := s.outbox)
  {
  }
}
