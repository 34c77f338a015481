/** Delivery updates over runs: every update at or below the status cursor was applied. */
module DeliveryStatus {
  // A reply may be lost, late, repeated or cut short, and the status cursor may even go back; still no
  // update is passed over.

  import opened Ids
  import opened RelayTables
  import opened RelayIntegrity
  import opened RelayStore
  import Receipts = RelayReceipts
  import Relay = RelayRun
  import opened LocalTables
  import opened ClientSync
  import opened MessageHistory
  import opened Delivery
  import opened DeliveryPull
  import opened DeliveryHistory

  // ----- how the relay's updates evolve -----

  /** An update of `s` is one of `t`, or has a cursor that was never used. */
  ghost predicate UpdatesFollow(t: Tables, s: Tables) {
    && t.nextUpdate <= s.nextUpdate
    && forall u :: u in s.updates ==> u in t.updates || t.nextUpdate <= u.cursor
  }

  lemma AckUpdatesFollow(t: Tables, device: DeviceId, id: EnvelopeId, now: int)
    ensures UpdatesFollow(t, Ack(t, device, id, now).0)
  {
  }

  lemma StoreUpdatesFollow(t: Tables, op: Relay.RelayOp)
    requires op.Store?
    ensures UpdatesFollow(t, Relay.Apply(t, op))
  {
    if Relay.Apply(t, op) != t {
      var tx, active := StoredSteps(t, op.sender, op.device, op.envelopes, op.now, op.limits, op.freeDisk);
      InsertAllAppends(tx, op.sender, op.device, active, op.now);
    }
  }

  lemma MembershipUpdatesFollow(t: Tables, m: Relay.Roster.RosterOp)
    requires Inv(t)
    ensures UpdatesFollow(t, Relay.Apply(t, Relay.Membership(m)))
  {
    if m.Delete? {
      DeleteUpdates(t, m.account, DELETE_STATEMENTS);
      DeleteAccounts(t, m.account, DELETE_STATEMENTS);
    } else if m.RevokeOwn? || m.RevokeByAdmin? {
      Relay.RevocationIs(t, m);
    } else {
      Relay.MembershipReshapes(t, m);
    }
  }

  lemma ApplyUpdatesFollow(t: Tables, op: Relay.RelayOp)
    requires Inv(t)
    ensures UpdatesFollow(t, Relay.Apply(t, op))
  {
    match op
    case Store(_, _, _, _, _, _) => StoreUpdatesFollow(t, op);
    case Acknowledge(device, id, now) => AckUpdatesFollow(t, device, id, now);
    case Retire(_, _) =>
    case Prune(c, cutoff, deliveredOnly) => PruneRemovesTargets(t, c, cutoff, deliveredOnly);
    case Membership(m) => MembershipUpdatesFollow(t, m);
    case Aside(side) => Relay.SideReshapes(t, side);
  }

  // ----- what has been applied -----

  /** The history has handled every update of this account up to the cursor. */
  ghost predicate UpTo(me: Me, t: Tables, log: seq<Entry>, cursor: nat) {
    cursor < t.nextUpdate
    && forall u :: u in t.updates && u.account == me.account && u.cursor <= cursor ==> Noted(u.logicalId) in log
  }

  /** A reply brings every update up to its cursor that has not been handled. */
  ghost predicate CatchesUp(me: Me, t: Tables, log: seq<Entry>, batch: Batch) {
    && batch.nextStatus < t.nextUpdate && Receipts.Reaches(batch.statuses, 0) <= batch.nextStatus
    && forall u :: u in t.updates && u.account == me.account && u.cursor <= batch.nextStatus ==>
         Noted(u.logicalId) in log || exists v :: v in batch.statuses && v.logicalId == u.logicalId
  }

  ghost predicate AllTold(me: Me, w: World, log: seq<Entry>) {
    && UpTo(me, w.tables, log, w.local.statusCursor)
    && (forall after: nat, status: nat :: Request(after, status) in w.net ==> UpTo(me, w.tables, log, status))
    && (forall after, batch :: Reply(after, batch) in w.net ==> CatchesUp(me, w.tables, log, batch))
  }

  lemma ToldMoves(me: Me, t: Tables, s: Tables, log: seq<Entry>, more: seq<Entry>, cursor: nat)
    requires UpdatesFollow(t, s) && UpTo(me, t, log, cursor)
    ensures UpTo(me, s, log + more, cursor)
  {
  }

  lemma BringsMoves(me: Me, t: Tables, s: Tables, log: seq<Entry>, more: seq<Entry>, batch: Batch)
    requires UpdatesFollow(t, s) && CatchesUp(me, t, log, batch)
    ensures CatchesUp(me, s, log + more, batch)
  {
  }

  /** Steps that leave the status cursor alone and put no request or reply on the way. */
  lemma ToldStays(me: Me, w: World, s: World, log: seq<Entry>, more: seq<Entry>)
    requires AllTold(me, w, log) && UpdatesFollow(w.tables, s.tables) && s.local.statusCursor == w.local.statusCursor
    requires forall p :: p in s.net && (p.Request? || p.Reply?) ==> p in w.net
    ensures AllTold(me, s, log + more)
  {
    ToldMoves(me, w.tables, s.tables, log, more, w.local.statusCursor);
    forall after: nat, status: nat | Request(after, status) in s.net ensures UpTo(me, s.tables, log + more, status) {
      ToldMoves(me, w.tables, s.tables, log, more, status);
    }
    forall after, batch | Reply(after, batch) in s.net ensures CatchesUp(me, s.tables, log + more, batch) {
      BringsMoves(me, w.tables, s.tables, log, more, batch);
    }
  }

  lemma SameUpdates(t: Tables)
    ensures UpdatesFollow(t, t)
  {
  }

  // ----- a reply -----

  lemma ReplyBrings(me: Me, t: Tables, log: seq<Entry>, after: nat, statusAfter: nat)
    requires Counters(t) && UpTo(me, t, log, statusAfter)
    ensures CatchesUp(me, t, log, Sync(t, me.account, me.device, after, statusAfter, SYNC_LIMIT))
  {
    Receipts.StatusesAreExact(t, me.account, me.device, after, statusAfter, SYNC_LIMIT);
    var batch := Sync(t, me.account, me.device, after, statusAfter, SYNC_LIMIT);
    if batch.statuses != [] {
      assert batch.statuses[|batch.statuses| - 1] in batch.statuses;
    }
  }

  /** Handling a batch leaves the status cursor alone when it stops midway. */
  lemma BatchStatusCursor(t: Local, batch: Batch, verdicts: seq<Verdict>)
    requires |verdicts| == |batch.rows|
    ensures var after := HandleBatch(t, batch, verdicts).local.statusCursor;
            after == t.statusCursor || after == StatusAfter(t, batch)
  {
    ApplyStatusesFrame(t, batch.statuses);
    RowsKeepStatusCursor(ApplyStatuses(t, batch.statuses), batch.rows, verdicts);
  }

  lemma BatchLogNotes(t: Local, batch: Batch, verdicts: seq<Verdict>, v: Update)
    requires |verdicts| == |batch.rows| && v in batch.statuses
    ensures Noted(v.logicalId) in BatchLog(t, batch, verdicts)
  {
    var i :| 0 <= i < |batch.statuses| && batch.statuses[i] == v;
    assert NotedAll(batch.statuses)[i] == Noted(v.logicalId);
    assert BatchLog(t, batch, verdicts)[i] == Noted(v.logicalId);
  }

  lemma ReplyReaches(me: Me, t: Tables, local: Local, log: seq<Entry>, batch: Batch, verdicts: seq<Verdict>)
    requires UpTo(me, t, log, local.statusCursor) && CatchesUp(me, t, log, batch) && |verdicts| == |batch.rows|
    ensures UpTo(me, t, log + BatchLog(local, batch, verdicts), StatusAfter(local, batch))
  {
    var more := BatchLog(local, batch, verdicts);
    forall u | u in t.updates && u.account == me.account && u.cursor <= StatusAfter(local, batch)
      ensures Noted(u.logicalId) in log + more
    {
      if Noted(u.logicalId) !in log {
        var v :| v in batch.statuses && v.logicalId == u.logicalId;
        BatchLogNotes(local, batch, verdicts, v);
      }
    }
  }

  lemma HandledReplyTold(me: Me, w: World, log: seq<Entry>, batch: Batch, verdicts: seq<Verdict>)
    requires AllTold(me, w, log) && CatchesUp(me, w.tables, log, batch) && |verdicts| == |batch.rows|
    ensures AllTold(me, Handle(w, batch, verdicts), log + BatchLog(w.local, batch, verdicts))
  {
    var s, more := Handle(w, batch, verdicts), BatchLog(w.local, batch, verdicts);
    SameUpdates(w.tables);
    ToldStays(me, w, s.(local := s.local.(statusCursor := w.local.statusCursor)), log, more);
    BatchStatusCursor(w.local, batch, verdicts);
    ReplyReaches(me, w.tables, w.local, log, batch, verdicts);
  }

  // ----- runs -----

  lemma PushTold(me: Me, w: World, log: seq<Entry>, row: Row, verdict: Verdict)
    requires AllTold(me, w, log)
    ensures AllTold(me, Handle(w, PushOf(row), [verdict]), log + BatchLog(w.local, PushOf(row), [verdict]))
  {
    SameUpdates(w.tables);
    BatchStatusCursor(w.local, PushOf(row), [verdict]);
    ToldStays(me, w, Handle(w, PushOf(row), [verdict]), log, BatchLog(w.local, PushOf(row), [verdict]));
  }

  lemma BatchEventTold(me: Me, w: World, log: seq<Entry>, e: Event)
    requires AllTold(me, w, log) && (e.HandleReply? || e.HandlePush?)
    ensures AllTold(me, Step(me, w, e), log + Entries(me, w, e))
  {
    assert log + [] == log;
    if e.HandleReply? {
      if Reply(e.after, e.batch) in w.net && |e.verdicts| == |e.batch.rows| && AllPlausible(me, w.composed, e.verdicts) {
        HandledReplyTold(me, w, log, e.batch, e.verdicts);
      }
    } else if Push(e.row) in w.net && Plausible(me, w.composed, e.verdict) {
      PushTold(me, w, log, e.row, e.verdict);
    }
  }

  lemma ServeSyncTold(me: Me, w: World, log: seq<Entry>, after: nat, statusAfter: nat)
    requires AllTold(me, w, log) && Inv(w.tables)
    ensures AllTold(me, DoServeSync(me, w, after, statusAfter), log)
  {
    if Request(after, statusAfter) in w.net {
      ReplyBrings(me, w.tables, log, after, statusAfter);
    }
  }

  lemma StepTablesFollow(me: Me, w: World, e: Event)
    requires Inv(w.tables)
    ensures UpdatesFollow(w.tables, Step(me, w, e).tables)
  {
    match e
    case Elsewhere(op) => ApplyUpdatesFollow(w.tables, op);
    case ServeAck(id, now) => ApplyUpdatesFollow(w.tables, Relay.Acknowledge(me.device, id, now));
    case ServeFrame(frame, now, limits, freeDisk) =>
      ApplyUpdatesFollow(w.tables, Relay.Store(me.account, me.device, frame, now, limits, freeDisk));
    case _ =>
  }

  lemma QuietTold(me: Me, w: World, log: seq<Entry>, e: Event)
    requires AllTold(me, w, log) && Inv(w.tables)
    requires !e.HandleReply? && !e.HandlePush? && !e.ServeSync? && !e.RequestSync?
    ensures AllTold(me, Step(me, w, e), log + Entries(me, w, e))
  {
    StepTablesFollow(me, w, e);
    QuietFrame(me, w, e);
    ToldStays(me, w, Step(me, w, e), log, Entries(me, w, e));
  }

  lemma QuietFrame(me: Me, w: World, e: Event)
    requires !e.HandleReply? && !e.HandlePush? && !e.ServeSync? && !e.RequestSync?
    ensures var s := Step(me, w, e);
            && s.local.statusCursor == w.local.statusCursor
            && forall p :: p in s.net && (p.Request? || p.Reply?) ==> p in w.net
  {
    if AtRelay(e) {
      RelayFrame(me, w, e);
    } else {
      LocalFrame(me, w, e);
    }
  }

  lemma RelayFrame(me: Me, w: World, e: Event)
    requires AtRelay(e) && !e.ServeSync?
    ensures var s := Step(me, w, e); s.local == w.local && forall p :: p in s.net && (p.Request? || p.Reply?) ==> p in w.net
  {
  }

  lemma LocalFrame(me: Me, w: World, e: Event)
    requires !AtRelay(e) && !e.HandleReply? && !e.HandlePush? && !e.RequestSync?
    ensures var s := Step(me, w, e);
            && s.local.statusCursor == w.local.statusCursor
            && forall p :: p in s.net && (p.Request? || p.Reply?) ==> p in w.net
  {
  }

  lemma StepTold(me: Me, w: World, log: seq<Entry>, e: Event)
    requires AllTold(me, w, log) && Inv(w.tables)
    ensures AllTold(me, Step(me, w, e), log + Entries(me, w, e))
  {
    assert log + [] == log;
    if e.HandleReply? || e.HandlePush? {
      BatchEventTold(me, w, log, e);
    } else if e.ServeSync? {
      ServeSyncTold(me, w, log, e.after, e.statusAfter);
    } else if e.RequestSync? {
    } else {
      QuietTold(me, w, log, e);
    }
  }

  lemma {:induction false} RunTold(me: Me, w: World, events: seq<Event>, log: seq<Entry>)
    requires Sound(me, w) && AllTold(me, w, log)
    ensures AllTold(me, Run(me, w, events), log + History(me, w, events))
    decreases |events|
  {
    if events == [] {
      assert log + [] == log;
    } else {
      var s, now := Step(me, w, events[0]), Entries(me, w, events[0]);
      StepIsSound(me, w, events[0]);
      StepTold(me, w, log, events[0]);
      RunTold(me, s, events[1..], log + now);
      Regroup(log, now, History(me, s, events[1..]));
    }
  }

  lemma Regroup(a: seq<Entry>, b: seq<Entry>, c: seq<Entry>)
    ensures a + b + c == a + (b + c)
  {
  }

  /** No delivery update has reached a device that has just been set up. */
  ghost predicate NothingTold(w: World) {
    w.local.statusCursor == 0 && w.tables.nextUpdate > 0 && forall u :: u in w.tables.updates ==> u.cursor > 0
  }

  /**
   Over any run from a device just set up: every update of the account at or below the status cursor
   was handled, and a message that was stored by then is at least delivered, unless its conversation
   was deleted afterwards.
   */
  lemma UpdatesAreApplied(me: Me, w: World, events: seq<Event>, u: Update)
    requires Start(me, w) && NothingTold(w)
    requires var s := Run(me, w, events);
             u in s.tables.updates && u.account == me.account && u.cursor <= s.local.statusCursor
    ensures var log := History(me, w, events);
            exists i: nat :: i < |log| && log[i] == Noted(u.logicalId) && AppliedAt(me, w, events, i, u.logicalId)
  {
    var log, id := History(me, w, events), u.logicalId;
    StartIsSound(me, w);
    assert AllTold(me, w, []);
    RunTold(me, w, events, []);
    assert [] + log == log;
    var i: nat :| i < |log| && log[i] == Noted(id);
    if id in Filed(w.local.messages, log[..i]) {
      NotedIsDelivered(me, w, events, i, id);
    }
    assert AppliedAt(me, w, events, i, id);
  }

  /** If the message was stored when this entry came, it is at least delivered now, or was deleted since. */
  ghost predicate AppliedAt(me: Me, w: World, events: seq<Event>, i: nat, id: LogicalId)
    requires i < |History(me, w, events)|
  {
    var log, messages := History(me, w, events), Run(me, w, events).local.messages;
    var before := Filed(w.local.messages, log[..i]);
    id in before ==>
      || (id in messages && messages[id].status in {Status.Delivered, Status.Read})
      || DeletedSince(log, i + 1, before[id].conversation)
  }
}
