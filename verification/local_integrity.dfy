/**
 What the client's transactions keep over any run: exact conversation summaries, message status
 that never goes down, and the tombstone merge.
 */
module LocalIntegrity {
  import opened Ids
  import opened LocalTables

  // Every transaction of the local store that touches these tables.
  datatype LocalOp =
    | Outgoing(id: LogicalId, message: Message, frame: seq<Wire>)
    | ControlOutgoing(id: LogicalId, frame: seq<Wire>)
    | Receive(effect: Effect, cursor: nat)
    | Save(id: LogicalId, message: Message)
    | Status(id: LogicalId, status: Status)
    | OutboundStatus(id: LogicalId, peer: AccountId, status: Status)
    | DeleteLocally(peer: AccountId, username: nat, conversation: Conversation, syncId: LogicalId, deletedAt: int)
    | Synced(syncId: LogicalId)
    | Complete(id: LogicalId)
    | Verify(account: AccountId)
    | Cursors(cursor: nat, statusCursor: nat)

  /** One transaction; an aborted one changes nothing. */
  function Apply(t: Local, op: LocalOp): Local {
    match op
    case Outgoing(id, m, frame) => CommitOutgoing(t, id, m, frame)
    case ControlOutgoing(id, frame) => CommitControlOutgoing(t, id, frame)
    case Receive(e, cursor) => (match Commit(t, e, cursor) case None => t case Some(s) => s)
    case Save(id, m) => InsertMessage(t, id, m)
    case Status(id, status) => UpdateStatus(t, id, status)
    case OutboundStatus(id, peer, status) => UpdateOutboundStatus(t, id, peer, status)
    case DeleteLocally(peer, username, c, syncId, at) =>
      (match DeleteEverywhere(t, peer, username, c, syncId, at) case None => t case Some(s) => s)
    case Synced(syncId) => MarkSynced(t, syncId)
    case Complete(id) => CompleteOutbox(t, id)
    case Verify(account) => VerifyContact(t, account)
    case Cursors(c, s) => t.(cursor := c, statusCursor := s)
  }

  function Run(t: Local, ops: seq<LocalOp>): Local
    decreases |ops|
  {
    if ops == [] then t else Run(Apply(t, ops[0]), ops[1..])
  }

  // ----- summaries -----

  function UnreadIds(messages: map<LogicalId, Message>, c: Conversation): set<LogicalId> {
    set id | id in messages && messages[id].conversation == c && Unread(messages[id])
  }

  /** A message filed under the conversation of this account with its peer. */
  predicate Addressed(me: AccountId, m: Message) {
    m.conversation == ConversationOf(me, m.peer)
  }

  ghost predicate IsLatest(messages: map<LogicalId, Message>, c: Conversation, at: int) {
    && (forall id :: id in messages && messages[id].conversation == c ==> messages[id].sentAt <= at)
    && (exists id :: id in messages && messages[id].conversation == c && messages[id].sentAt == at)
  }

  ghost predicate SummaryOf(messages: map<LogicalId, Message>, c: Conversation, s: Summary) {
    s.unread == |UnreadIds(messages, c)| && IsLatest(messages, c, s.lastActivity)
  }

  /** Summaries are exactly what recounting the messages would give. */
  ghost predicate SummariesExact(me: AccountId, t: Local) {
    && AllAddressed(me, t)
    && Covers(t.messages, t.summaries.Keys)
    && (forall c :: c in t.summaries ==> SummaryOf(t.messages, c, t.summaries[c]))
  }

  ghost predicate AllAddressed(me: AccountId, t: Local) {
    && (forall id :: id in t.messages ==> Addressed(me, t.messages[id]))
    && (forall c :: c in t.summaries ==> c == ConversationOf(me, t.summaries[c].peer))
  }

  predicate OpAddressed(me: AccountId, op: LocalOp) {
    match op
    case Outgoing(_, m, _) => Addressed(me, m)
    case Save(_, m) => Addressed(me, m)
    case Receive(Inbound(_, m), _) => Addressed(me, m)
    case Receive(Unverified(_, m, _, _), _) => Addressed(me, m)
    case _ => true
  }

  lemma InsertMovesIds(messages: map<LogicalId, Message>, id: LogicalId, m: Message, c: Conversation)
    requires id !in messages
    ensures var after := messages[id := m];
            && IdsOf(after, c) == IdsOf(messages, c) + (if m.conversation == c then {id} else {})
            && UnreadIds(after, c) == UnreadIds(messages, c) + (if m.conversation == c && Unread(m) then {id} else {})
            && id !in UnreadIds(messages, c)
  {
  }

  lemma FirstMessageSummary(messages: map<LogicalId, Message>, id: LogicalId, m: Message)
    requires id !in messages && IdsOf(messages, m.conversation) == {}
    ensures SummaryOf(messages[id := m], m.conversation, Summary(m.peer, m.sentAt, UnreadWeight(m)))
  {
    var c, after := m.conversation, messages[id := m];
    InsertMovesIds(messages, id, m, c);
    assert UnreadIds(messages, c) == {};
    assert after[id] == m;
    forall i | i in after && after[i].conversation == c ensures i == id {
      assert i != id ==> i in IdsOf(messages, c);
    }
  }

  lemma NextMessageLatest(messages: map<LogicalId, Message>, id: LogicalId, m: Message, c: Conversation, at: int)
    requires id !in messages && IsLatest(messages, c, at)
    ensures IsLatest(messages[id := m], c, if m.conversation == c then Max(at, m.sentAt) else at)
  {
    var after := messages[id := m];
    var j :| j in messages && messages[j].conversation == c && messages[j].sentAt == at;
    assert after[j] == messages[j] && after[id] == m;
  }

  lemma NextMessageSummary(messages: map<LogicalId, Message>, id: LogicalId, m: Message, c: Conversation, b: Summary)
    requires id !in messages && SummaryOf(messages, c, b)
    ensures SummaryOf(messages[id := m], c,
      if m.conversation == c then Summary(m.peer, Max(b.lastActivity, m.sentAt), b.unread + UnreadWeight(m)) else b)
  {
    InsertMovesIds(messages, id, m, c);
    NextMessageLatest(messages, id, m, c, b.lastActivity);
  }

  ghost predicate Covers(messages: map<LogicalId, Message>, conversations: set<Conversation>) {
    forall c :: c in conversations <==> IdsOf(messages, c) != {}
  }

  lemma InsertCovers(messages: map<LogicalId, Message>, conversations: set<Conversation>, id: LogicalId, m: Message)
    requires id !in messages && Covers(messages, conversations)
    ensures Covers(messages[id := m], conversations + {m.conversation})
  {
    forall c: Conversation
      ensures IdsOf(messages[id := m], c) == IdsOf(messages, c) + (if m.conversation == c then {id} else {})
    {
      InsertMovesIds(messages, id, m, c);
    }
  }

  lemma InsertKeepsAddressed(me: AccountId, t: Local, id: LogicalId, m: Message)
    requires AllAddressed(me, t) && Addressed(me, m) && id !in t.messages
    ensures AllAddressed(me, InsertMessage(t, id, m))
    ensures InsertMessage(t, id, m).summaries == t.summaries[m.conversation :=
      if m.conversation in t.summaries
      then Summary(m.peer, Max(t.summaries[m.conversation].lastActivity, m.sentAt),
                   t.summaries[m.conversation].unread + UnreadWeight(m))
      else Summary(m.peer, m.sentAt, UnreadWeight(m))]
  {
  }

  lemma InsertKeepsSummaries(me: AccountId, t: Local, id: LogicalId, m: Message)
    requires SummariesExact(me, t) && Addressed(me, m)
    ensures SummariesExact(me, InsertMessage(t, id, m))
  {
    if id !in t.messages {
      InsertKeepsAddressed(me, t, id, m);
      InsertCovers(t.messages, t.summaries.Keys, id, m);
      var s := InsertMessage(t, id, m);
      assert s.summaries.Keys == t.summaries.Keys + {m.conversation};
      forall c | c in s.summaries ensures SummaryOf(s.messages, c, s.summaries[c]) {
        if c in t.summaries {
          assert SummaryOf(t.messages, c, t.summaries[c]);
          NextMessageSummary(t.messages, id, m, c, t.summaries[c]);
        } else {
          FirstMessageSummary(t.messages, id, m);
        }
      }
    }
  }

  lemma StatusMovesIds(messages: map<LogicalId, Message>, id: LogicalId, status: Status, c: Conversation)
    requires id in messages && Rank(messages[id].status) < Rank(status)
    ensures var after := messages[id := messages[id].(status := status)];
            && IdsOf(after, c) == IdsOf(messages, c)
            && UnreadIds(after, c) == UnreadIds(messages, c)
                 - (if messages[id].conversation == c && status == Read then {id} else {})
            && (messages[id].conversation == c && Unread(messages[id]) <==> id in UnreadIds(messages, c))
  {
  }

  lemma StatusSummary(messages: map<LogicalId, Message>, id: LogicalId, status: Status, c: Conversation, b: Summary)
    requires id in messages && Rank(messages[id].status) < Rank(status) && SummaryOf(messages, c, b)
    ensures SummaryOf(messages[id := messages[id].(status := status)], c,
      if messages[id].conversation == c && Unread(messages[id]) && status == Read
      then b.(unread := Max(0, b.unread - 1)) else b)
  {
    StatusMovesIds(messages, id, status, c);
    var after := messages[id := messages[id].(status := status)];
    var j :| j in messages && messages[j].conversation == c && messages[j].sentAt == b.lastActivity;
    assert after[j].sentAt == messages[j].sentAt;
    assert id in UnreadIds(messages, c) ==> |UnreadIds(messages, c)| >= 1;
  }

  lemma StatusKeepsSummaries(me: AccountId, t: Local, id: LogicalId, status: Status)
    requires SummariesExact(me, t)
    ensures SummariesExact(me, UpdateStatus(t, id, status))
  {
    if id in t.messages && Rank(t.messages[id].status) < Rank(status) {
      var s := SetStatus(t, id, status);
      forall c: Conversation ensures IdsOf(s.messages, c) == IdsOf(t.messages, c) {
        StatusMovesIds(t.messages, id, status, c);
      }
      forall c | c in s.summaries ensures SummaryOf(s.messages, c, s.summaries[c]) {
        assert SummaryOf(t.messages, c, t.summaries[c]);
        StatusSummary(t.messages, id, status, c, t.summaries[c]);
      }
    }
  }

  lemma DeleteKeepsSummary(messages: map<LogicalId, Message>, c0: Conversation, c: Conversation, b: Summary)
    requires c != c0 && SummaryOf(messages, c, b)
    ensures SummaryOf(messages - IdsOf(messages, c0), c, b)
  {
    var after := messages - IdsOf(messages, c0);
    assert UnreadIds(after, c) == UnreadIds(messages, c);
    var j :| j in messages && messages[j].conversation == c && messages[j].sentAt == b.lastActivity;
    assert j in after;
  }

  lemma DeleteKeepsSummaries(me: AccountId, t: Local, peer: AccountId, c0: Conversation)
    requires SummariesExact(me, t)
    ensures SummariesExact(me, DeleteConversationState(t, peer, c0))
  {
    var s := DeleteConversationState(t, peer, c0);
    forall c | c in s.summaries ensures SummaryOf(s.messages, c, s.summaries[c]) {
      assert SummaryOf(t.messages, c, t.summaries[c]);
      DeleteKeepsSummary(t.messages, c0, c, t.summaries[c]);
    }
    DeleteCovers(t.messages, t.summaries.Keys, c0);
    assert s.summaries.Keys == t.summaries.Keys - {c0};
  }

  lemma DeleteCovers(messages: map<LogicalId, Message>, conversations: set<Conversation>, c0: Conversation)
    requires Covers(messages, conversations)
    ensures Covers(messages - IdsOf(messages, c0), conversations - {c0})
  {
    var after := messages - IdsOf(messages, c0);
    forall c: Conversation ensures IdsOf(after, c) == (if c == c0 then {} else IdsOf(messages, c)) {
    }
  }

  lemma ReceiveKeepsSummaries(me: AccountId, t: Local, e: Effect, cursor: nat)
    requires SummariesExact(me, t) && OpAddressed(me, Receive(e, cursor))
    ensures SummariesExact(me, Apply(t, Receive(e, cursor)))
  {
    match e
    case Inbound(id, m) =>
      InsertKeepsSummaries(me, t, id, m);
    case Unverified(id, m, _, _) =>
      InsertKeepsSummaries(me, t, id, m);
    case Deletion(peer, username, c, syncId, at) =>
      DeleteKeepsSummaries(me, t, peer, c);
    case Control =>
  }

  lemma ApplyKeepsSummaries(me: AccountId, t: Local, op: LocalOp)
    requires SummariesExact(me, t) && OpAddressed(me, op)
    ensures SummariesExact(me, Apply(t, op))
  {
    match op
    case Outgoing(id, m, _) =>
      InsertKeepsSummaries(me, t, id, m);
    case Save(id, m) => InsertKeepsSummaries(me, t, id, m);
    case Receive(e, cursor) => ReceiveKeepsSummaries(me, t, e, cursor);
    case DeleteLocally(peer, _, c, _, _) =>
      DeleteKeepsSummaries(me, t, peer, c);
    case Status(id, status) => StatusKeepsSummaries(me, t, id, status);
    case OutboundStatus(id, _, status) => StatusKeepsSummaries(me, t, id, status);
    case Complete(id) =>
      var s := MarkSynced(t.(outbox := t.outbox - {id}), id);
      StatusKeepsSummaries(me, s, id, Sent);
    case _ =>
  }

  /** After any run, every summary is the count and the latest time of its conversation's messages. */
  lemma {:induction false} RunKeepsSummaries(me: AccountId, t: Local, ops: seq<LocalOp>)
    requires SummariesExact(me, t) && forall op :: op in ops ==> OpAddressed(me, op)
    ensures SummariesExact(me, Run(t, ops))
    decreases |ops|
  {
    if ops == [] {
    } else {
      ApplyKeepsSummaries(me, t, ops[0]);
      RunKeepsSummaries(me, Apply(t, ops[0]), ops[1..]);
    }
  }

  // ----- message status -----

  /** While a message is stored its status never goes down, and nothing else about it changes. */
  ghost predicate StatusGrows(t: Local, s: Local) {
    forall id :: id in t.messages && id in s.messages ==>
      && Rank(t.messages[id].status) <= Rank(s.messages[id].status)
      && s.messages[id] == t.messages[id].(status := s.messages[id].status)
  }

  lemma UpdateGrowsStatus(t: Local, id: LogicalId, status: Status)
    ensures StatusGrows(t, UpdateStatus(t, id, status))
  {
  }

  /** Messages that stay as they are, whichever others go. */
  ghost predicate Subset(t: Local, s: Local) {
    forall id :: id in t.messages && id in s.messages ==> s.messages[id] == t.messages[id]
  }

  predicate SetsStatus(op: LocalOp) {
    op.Status? || op.OutboundStatus? || op.Complete?
  }

  lemma OtherOpsKeepStatus(t: Local, op: LocalOp)
    requires !SetsStatus(op)
    ensures Subset(t, Apply(t, op))
  {
    match op
    case Receive(e, cursor) =>
      match e {
        case Deletion(_, _, _, _, _) =>
        case _ =>
      }
    case _ =>
  }

  lemma ApplyGrowsStatus(t: Local, op: LocalOp)
    ensures StatusGrows(t, Apply(t, op))
  {
    if SetsStatus(op) {
      match op
      case Status(id, status) => UpdateGrowsStatus(t, id, status);
      case OutboundStatus(id, _, status) => UpdateGrowsStatus(t, id, status);
      case Complete(id) => UpdateGrowsStatus(MarkSynced(t.(outbox := t.outbox - {id}), id), id, Sent);
    } else {
      OtherOpsKeepStatus(t, op);
    }
  }

  /** A run in which the message is stored throughout. */
  ghost predicate StoredThroughout(t: Local, ops: seq<LocalOp>, id: LogicalId)
    decreases |ops|
  {
    id in t.messages && (ops != [] ==> StoredThroughout(Apply(t, ops[0]), ops[1..], id))
  }

  lemma {:induction false} RunGrowsStatus(t: Local, ops: seq<LocalOp>, id: LogicalId)
    requires StoredThroughout(t, ops, id)
    ensures id in Run(t, ops).messages
    ensures Rank(t.messages[id].status) <= Rank(Run(t, ops).messages[id].status)
    ensures Run(t, ops).messages[id] == t.messages[id].(status := Run(t, ops).messages[id].status)
    decreases |ops|
  {
    if ops == [] {
    } else {
      ApplyGrowsStatus(t, ops[0]);
      RunGrowsStatus(Apply(t, ops[0]), ops[1..], id);
    }
  }

  // ----- deleting one conversation -----

  /** What deletion removes, and that nothing else of the store changes. */
  lemma DeletionIsExact(t: Local, peer: AccountId, c: Conversation)
    ensures var s := DeleteConversationState(t, peer, c);
            && (forall id :: id in s.messages <==> id in t.messages && t.messages[id].conversation != c)
            && (forall id :: id in s.messages ==> s.messages[id] == t.messages[id])
            && (forall d :: d in s.drafts <==> d in t.drafts && d != c)
            && (forall d :: d in s.drafts ==> s.drafts[d] == t.drafts[d])
            && (forall d :: d in s.summaries <==> d in t.summaries && d != c)
            && (forall d :: d in s.summaries ==> s.summaries[d] == t.summaries[d])
            && (forall a :: a in s.contacts <==> a in t.contacts && a != peer)
            && (forall a :: a in s.contacts ==> s.contacts[a] == t.contacts[a])
            && (forall r :: r in s.notices <==> r in t.notices && (t.notices[r].actor != peer || t.notices[r].kind == Pairing))
            && (forall r :: r in s.notices ==> s.notices[r] == t.notices[r])
            && s.tombstones == t.tombstones && s.cursor == t.cursor && s.statusCursor == t.statusCursor
  {
  }

  /**
   An outbox entry survives the deletion of a conversation exactly when its id is not one of the
   conversation's messages; so receipts and requests queued for that conversation are still sent.
   */
  lemma OutboxSurvivesExactly(t: Local, peer: AccountId, c: Conversation, id: LogicalId)
    requires id in t.outbox
    ensures id in DeleteConversationState(t, peer, c).outbox
       <==> !(id in t.messages && t.messages[id].conversation == c)
    ensures id in DeleteConversationState(t, peer, c).outbox ==>
      DeleteConversationState(t, peer, c).outbox[id] == t.outbox[id]
  {
  }

  /** One of the envelopes of a queued frame is for this conversation. */
  predicate Carries(frame: seq<Wire>, c: Conversation) {
    exists e :: e in frame && e.conversation == c
  }

  /** The queued frame belongs to a message of the conversation. */
  predicate SendsMessageOf(t: Local, id: LogicalId, c: Conversation) {
    id in t.messages && t.messages[id].conversation == c
  }

  /**
   After the deletion nothing queued is for the conversation if and only if every frame that was
   queued for it belonged to one of its messages.
   */
  lemma QueueIsClearedExactly(t: Local, peer: AccountId, c: Conversation)
    ensures (forall id :: id in DeleteConversationState(t, peer, c).outbox ==>
              !Carries(DeleteConversationState(t, peer, c).outbox[id], c))
       <==> (forall id :: id in t.outbox && Carries(t.outbox[id], c) ==> SendsMessageOf(t, id, c))
  {
    forall id | id in t.outbox
      ensures id in DeleteConversationState(t, peer, c).outbox <==> !SendsMessageOf(t, id, c)
    {
      OutboxSurvivesExactly(t, peer, c, id);
    }
  }

  /** The condition can fail: a receipt queued for the conversation is not one of its messages. */
  lemma QueuedReceiptSurvives() returns (t: Local, id: LogicalId, c: Conversation)
    ensures id in t.outbox && Carries(t.outbox[id], c) && !SendsMessageOf(t, id, c)
    ensures id in DeleteConversationState(t, 2, c).outbox
  {
    c := ConversationOf(1, 2);
    id := 7;
    var e := Wire(1, id, c, 2, 20, [1], 0, 0);
    t := BLANK.(outbox := map[id := [e]]);
    assert e in t.outbox[id];
  }

  // ----- tombstones -----

  ghost predicate UniqueSyncIds(tombstones: Tombstones) {
    forall p, q :: p in tombstones && q in tombstones && tombstones[p].syncId == tombstones[q].syncId ==> p == q
  }

  /** The deletion an operation applies to a peer, if any. */
  function DeletionOf(op: LocalOp): Option<(AccountId, Tombstone)> {
    match op
    case DeleteLocally(peer, username, c, syncId, at) => Some((peer, Tombstone(username, c, syncId, at, true)))
    case Receive(Deletion(peer, username, c, syncId, at), _) => Some((peer, Tombstone(username, c, syncId, at, false)))
    case _ => None
  }

  /** An operation seen from the tombstones alone. */
  function Tombs(tombstones: Tombstones, op: LocalOp): Tombstones {
    var d := DeletionOf(op);
    if d.Some? then
      match Upsert(tombstones, d.value.0, d.value.1)
      case None => tombstones
      case Some(next) => next
    else
      match op
      case Synced(id) => Settle(tombstones, id)
      case Complete(id) => Settle(tombstones, id)
      case Verify(p) => tombstones - {p}
      case _ => tombstones
  }

  lemma ApplyTombs(t: Local, op: LocalOp)
    ensures Apply(t, op).tombstones == Tombs(t.tombstones, op)
  {
    assert DeletionOf(op).None? && op.Receive? ==> !op.effect.Deletion?;
  }

  function RunTombs(tombstones: Tombstones, ops: seq<LocalOp>): Tombstones
    decreases |ops|
  {
    if ops == [] then tombstones else RunTombs(Tombs(tombstones, ops[0]), ops[1..])
  }

  /** The tombstones of a run of the whole store are the run of the tombstones. */
  lemma {:induction false} RunIsRunTombs(t: Local, ops: seq<LocalOp>)
    ensures Run(t, ops).tombstones == RunTombs(t.tombstones, ops)
    decreases |ops|
  {
    if ops == [] {
    } else {
      ApplyTombs(t, ops[0]);
      RunIsRunTombs(Apply(t, ops[0]), ops[1..]);
    }
  }

  lemma {:induction false} RunKeepsUniqueSyncIds(tombstones: Tombstones, ops: seq<LocalOp>)
    requires UniqueSyncIds(tombstones)
    ensures UniqueSyncIds(RunTombs(tombstones, ops))
    decreases |ops|
  {
    if ops == [] {
    } else {
      RunKeepsUniqueSyncIds(Tombs(tombstones, ops[0]), ops[1..]);
    }
  }

  /** Does the operation apply a deletion to `p`? An aborted one does not. */
  predicate Deletes(tombstones: Tombstones, op: LocalOp, p: AccountId) {
    var d := DeletionOf(op);
    d.Some? && d.value.0 == p && Upsert(tombstones, p, d.value.1).Some?
  }

  /** The latest time of the deletions applied to `p` since it was last verified, from `latest` on. */
  function LatestDeletion(tombstones: Tombstones, ops: seq<LocalOp>, p: AccountId, latest: Option<int>): Option<int>
    decreases |ops|
  {
    if ops == [] then latest
    else
      var next :=
        if ops[0] == Verify(p) then None
        else if Deletes(tombstones, ops[0], p) then
          var at := DeletionOf(ops[0]).value.1.deletedAt;
          Some(if latest.Some? then Max(latest.value, at) else at)
        else latest;
      LatestDeletion(Tombs(tombstones, ops[0]), ops[1..], p, next)
  }

  function TimeOf(tombstones: Tombstones, p: AccountId): Option<int> {
    if p in tombstones then Some(tombstones[p].deletedAt) else None
  }

  /** A tombstone's time is the maximum of the deletions applied since its peer was last verified. */
  lemma {:induction false} DeletionTimeIsMaximum(tombstones: Tombstones, ops: seq<LocalOp>, p: AccountId)
    ensures LatestDeletion(tombstones, ops, p, TimeOf(tombstones, p)) == TimeOf(RunTombs(tombstones, ops), p)
    decreases |ops|
  {
    if ops == [] {
    } else {
      DeletionTimeIsMaximum(Tombs(tombstones, ops[0]), ops[1..], p);
    }
  }

  /** The operations that settle or discard a pending deletion of `p` with sync event `id`. */
  predicate Settles(op: LocalOp, p: AccountId, id: LogicalId) {
    op == Synced(id) || op == Complete(id) || op == Verify(p)
  }

  ghost predicate PendingAs(tombstones: Tombstones, p: AccountId, id: LogicalId) {
    p in tombstones && tombstones[p].pending && tombstones[p].syncId == id
  }

  /** A pending deletion keeps its sync event id through any run until exactly that id is settled. */
  lemma {:induction false} PendingDeletionIsKept(tombstones: Tombstones, ops: seq<LocalOp>, p: AccountId, id: LogicalId)
    requires PendingAs(tombstones, p, id) && forall op :: op in ops ==> !Settles(op, p, id)
    ensures PendingAs(RunTombs(tombstones, ops), p, id)
    decreases |ops|
  {
    if ops == [] {
    } else {
      assert !Settles(ops[0], p, id);
      PendingDeletionIsKept(Tombs(tombstones, ops[0]), ops[1..], p, id);
    }
  }

  /** Settling an id clears exactly the tombstone that carries it. */
  lemma SettlingIsExact(tombstones: Tombstones, p: AccountId, id: LogicalId)
    requires UniqueSyncIds(tombstones) && PendingAs(tombstones, p, id)
    ensures Settle(tombstones, id) == tombstones[p := tombstones[p].(pending := false)]
  {
  }

  /**
   Remote deletions merge to the same tombstone in either order if and only if they have different
   times, or come before the known deletion, or agree in name, conversation and, where it counts,
   sync event. At equal times the later merge wins.
   */
  lemma RemoteMergesCommute(base: Tombstone, a: Tombstone, b: Tombstone)
    requires !a.pending && !b.pending
    ensures MergeTombstone(MergeTombstone(base, a), b) == MergeTombstone(MergeTombstone(base, b), a)
       <==> || a.deletedAt != b.deletedAt || a.deletedAt < base.deletedAt
            || (a.username == b.username && a.conversation == b.conversation && (base.pending || a.syncId == b.syncId))
    ensures a.deletedAt == b.deletedAt >= base.deletedAt ==>
              MergeTombstone(MergeTombstone(base, a), b)
              == Tombstone(b.username, b.conversation, if base.pending then base.syncId else b.syncId, b.deletedAt, base.pending)
  {
  }

  /** The event id of a merge is the new one's, and not one that is still to be announced. */
  predicate TakesOver(tombstones: Tombstones, peer: AccountId, wanted: Tombstone) {
    peer in tombstones ==>
      !tombstones[peer].pending && (wanted.pending || wanted.deletedAt >= tombstones[peer].deletedAt)
  }

  /** A deletion is aborted if and only if its event id takes over and already stands for another peer. */
  lemma UpsertFailsExactly(tombstones: Tombstones, peer: AccountId, wanted: Tombstone)
    requires UniqueSyncIds(tombstones)
    ensures Upsert(tombstones, peer, wanted).None? <==> Clashes(tombstones, peer, wanted)
  {
  }

  predicate Clashes(tombstones: Tombstones, peer: AccountId, wanted: Tombstone) {
    && TakesOver(tombstones, peer, wanted)
    && exists p :: p in tombstones && p != peer && tombstones[p].syncId == wanted.syncId
  }

  lemma UpsertKeepsUnique(tombstones: Tombstones, peer: AccountId, wanted: Tombstone)
    requires UniqueSyncIds(tombstones) && Upsert(tombstones, peer, wanted).Some?
    ensures UniqueSyncIds(Upsert(tombstones, peer, wanted).value)
  {
  }

  /** From a new store on: summaries are exact and no two tombstones share a sync event. */
  lemma StoreFromStart(me: AccountId, ops: seq<LocalOp>)
    requires forall op :: op in ops ==> OpAddressed(me, op)
    ensures SummariesExact(me, Run(BLANK, ops)) && UniqueSyncIds(Run(BLANK, ops).tombstones)
  {
    assert forall c :: IdsOf(BLANK.messages, c) == {};
    RunKeepsSummaries(me, BLANK, ops);
    RunIsRunTombs(BLANK, ops);
    RunKeepsUniqueSyncIds(BLANK.tombstones, ops);
  }
}
