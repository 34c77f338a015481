/** No loss and no repetition on the pull path, and exactly when a live push is harmless. */
module DeliveryPull {
  import opened Ids
  import opened RelayTables
  import opened RelayIntegrity
  import Receipts = RelayReceipts
  import Relay = RelayRun
  import opened LocalTables
  import opened ClientSync
  import opened Delivery

  // ----- a sync reply is a contiguous segment of the queue -----

  /** A reply holds every row of the device between the request's cursor and the reply's last row. */
  lemma SyncIsContiguous(me: Me, t: Tables, cursor: nat, after: nat, statusAfter: nat, limit: nat)
    requires Counters(t) && after <= cursor < t.nextCursor
    ensures ReplyOk(me, t, cursor, after, Sync(t, me.account, me.device, after, statusAfter, limit))
  {
    Receipts.EnvelopesAreExact(t, me.account, me.device, after, statusAfter, limit);
    var batch := Sync(t, me.account, me.device, after, statusAfter, limit);
    forall r | r in batch.rows ensures Relay.Known(batch.rows, r) {
      assert Relay.SameRow(r, r);
    }
  }

  /** What a step must keep. */
  ghost predicate Kept(me: Me, w: World, s: World) {
    Sound(me, s) && (Complete(me, w) ==> Complete(me, s))
  }

  // ----- packets stay valid while the relay moves on -----

  lemma PacketsStayOk(me: Me, t: Tables, s: Tables, cursor: nat, net: set<Packet>)
    requires RepliesOk(me, t, cursor, net) && Relay.Follows(t, s)
    ensures RepliesOk(me, s, cursor, net)
  {
    forall after, batch | Reply(after, batch) in net ensures ReplyOk(me, s, cursor, after, batch) {
    }
    forall row | Push(row) in net ensures PushOk(s, row) {
    }
  }

  lemma DeliveredStaysOk(me: Me, t: Tables, s: Tables, committed: seq<Row>, acked: Option<EnvelopeId>)
    requires DeliveredOk(me, t, committed) && Relay.DeliversOnly(t, s, me.device, acked)
    requires acked.Some? ==> CommittedId(committed, acked.value)
    ensures DeliveredOk(me, s, committed)
  {
    forall r | r in s.rows && r.wire.recipientDevice == me.device && r.deliveredAt.Some?
      ensures CommittedId(committed, r.wire.envelopeId)
    {
      if Relay.KnownAsDelivered(t.rows, r) {
        var q :| q in t.rows && Relay.SameRow(q, r) && q.deliveredAt.Some?;
        assert CommittedId(committed, q.wire.envelopeId);
      }
    }
  }

  /** Any step of the relay that acks nothing of ours, or only what was committed. */
  lemma TablesEvolve(me: Me, w: World, s: Tables, acked: Option<EnvelopeId>)
    requires Sound(me, w) && Inv(s) && Relay.Follows(w.tables, s) && Relay.DeliversOnly(w.tables, s, me.device, acked)
    requires acked.Some? ==> CommittedId(w.committed, acked.value)
    ensures Kept(me, w, w.(tables := s))
  {
    PacketsStayOk(me, w.tables, s, w.local.cursor, w.net);
    DeliveredStaysOk(me, w.tables, s, w.committed, acked);
  }

  // ----- handling a batch -----

  lemma AscendingConcat(a: seq<Row>, b: seq<Row>)
    requires Ascending(a, 0) && Ascending(b, LastCursor(a, 0))
    ensures Ascending(a + b, 0) && LastCursor(a + b, 0) == LastCursor(b, LastCursor(a, 0))
  {
    forall i, j | 0 <= i < j < |a + b| ensures (a + b)[i].cursor < (a + b)[j].cursor {
      if i < |a| <= j {
        assert a[i].cursor <= a[|a| - 1].cursor;
      }
    }
  }

  lemma CommittedIdGrows(committed: seq<Row>, done: seq<Row>, id: EnvelopeId)
    requires CommittedId(committed, id) || CommittedId(done, id)
    ensures CommittedId(committed + done, id)
  {
    var c :| (c in committed || c in done) && c.wire.envelopeId == id;
    assert c in committed + done;
  }

  lemma CursorGrowthKeepsReplies(me: Me, w: World, s: World)
    requires RepliesOk(me, w.tables, w.local.cursor, w.net)
    requires s.tables == w.tables && w.local.cursor <= s.local.cursor
    requires forall p :: p in s.net && !p.AckOf? ==> p in w.net
    ensures RepliesOk(me, s.tables, s.local.cursor, s.net)
  {
    forall after, batch | Reply(after, batch) in s.net ensures ReplyOk(me, s.tables, s.local.cursor, after, batch) {
      assert ReplyOk(me, w.tables, w.local.cursor, after, batch);
    }
  }

  /** Handling any batch whose rows the relay has stored keeps the world sound. */
  lemma HandleIsSound(me: Me, w: World, batch: Batch, verdicts: seq<Verdict>)
    requires Sound(me, w) && |verdicts| == |batch.rows|
    requires forall r :: r in batch.rows ==> r.cursor < w.tables.nextCursor
    ensures Sound(me, Handle(w, batch, verdicts))
  {
    var h := HandleBatch(w.local, batch, verdicts);
    var s := Handle(w, batch, verdicts);
    BatchFacts(w.local, batch, verdicts);
    AscendingConcat(w.committed, h.done);
    forall id | AckOf(id) in s.net ensures CommittedId(s.committed, id) {
      CommittedIdGrows(w.committed, h.done, id);
    }
    forall r | r in s.tables.rows && r.wire.recipientDevice == me.device && r.deliveredAt.Some?
      ensures CommittedId(s.committed, r.wire.envelopeId)
    {
      CommittedIdGrows(w.committed, h.done, r.wire.envelopeId);
    }
    CursorGrowthKeepsReplies(me, w, s);
  }

  /** Handling a reply, even a stale or repeated one, leaves no stored row behind the cursor uncommitted. */
  lemma ReplyIsComplete(me: Me, w: World, after: nat, batch: Batch, verdicts: seq<Verdict>)
    requires Complete(me, w) && ReplyOk(me, w.tables, w.local.cursor, after, batch) && |verdicts| == |batch.rows|
    ensures Complete(me, Handle(w, batch, verdicts))
  {
    var h := HandleBatch(w.local, batch, verdicts);
    var s := Handle(w, batch, verdicts);
    BatchFacts(w.local, batch, verdicts);
    forall r | r in s.tables.rows && r.wire.recipientDevice == me.device && r.cursor <= s.local.cursor
      ensures Relay.Known(s.committed, r)
    {
      if r.cursor <= w.local.cursor {
        var c :| c in w.committed && Relay.SameRow(c, r);
        assert c in s.committed;
      } else {
        assert h.done[|h.done| - 1] in batch.rows;
        var q :| q in batch.rows && Relay.SameRow(q, r);
        BatchSkipsNothing(w.local, batch, verdicts, q);
        assert q in s.committed;
      }
    }
  }

  /** No stored row of this device lies strictly between its cursor and the pushed row. */
  ghost predicate NoGap(me: Me, w: World, row: Row) {
    forall r :: r in w.tables.rows && r.wire.recipientDevice == me.device ==> !(w.local.cursor < r.cursor < row.cursor)
  }

  lemma PushEffect(w: World, row: Row, verdict: Verdict)
    ensures var s := Handle(w, PushOf(row), [verdict]);
            || (s.committed == w.committed && s.local.cursor == w.local.cursor)
            || (s.committed == w.committed + [row] && s.local.cursor == row.cursor && row.cursor > w.local.cursor)
  {
    var batch := PushOf(row);
    var h := HandleBatch(w.local, batch, [verdict]);
    BatchFacts(w.local, batch, [verdict]);
    if h.done != [] {
      assert h.done[0] in batch.rows && h.done[|h.done| - 1] in batch.rows;
      assert h.done == [row];
    }
  }

  /**
   A push that is ignored or fails changes nothing; one that is committed keeps completeness if and
   only if no stored row of this device lies strictly between the cursor and the pushed row.
   */
  lemma PushKeepsExactly(me: Me, w: World, row: Row, verdict: Verdict)
    requires CursorOk(w) && Complete(me, w) && PushOk(w.tables, row)
    ensures var s := Handle(w, PushOf(row), [verdict]);
            && (s.committed == w.committed ==> Complete(me, s))
            && (s.committed != w.committed ==> (Complete(me, s) <==> NoGap(me, w, row)))
  {
    PushEffect(w, row, verdict);
  }

  // ----- runs -----

  /** Steps of the relay for others or for this device's frames. */
  lemma RelayStepIsSound(me: Me, w: World, op: Relay.RelayOp)
    requires Sound(me, w) && (Relay.AckBy(op, me.device).Some? ==> AckOf(op.id) in w.net)
    ensures Kept(me, w, w.(tables := Relay.Apply(w.tables, op)))
  {
    Relay.ApplyKeepsInv(w.tables, op);
    Relay.ApplyFollows(w.tables, op, me.device);
    TablesEvolve(me, w, Relay.Apply(w.tables, op), Relay.AckBy(op, me.device));
  }

  /** A client step that leaves the cursor and the history alone, and a net with no new batch or ack. */
  lemma QuietStepIsSound(me: Me, w: World, s: World)
    requires Sound(me, w)
    requires s.tables == w.tables && s.committed == w.committed && s.local.cursor == w.local.cursor
    requires forall p :: p in s.net && !p.Frame? && !p.Accepted? ==> p in w.net
    ensures Kept(me, w, s)
  {
  }

  lemma ServeFrameIsSound(me: Me, w: World, frame: seq<Wire>, now: int, limits: Limits, freeDisk: nat)
    requires Sound(me, w)
    ensures var s := ServeStore(me, w, frame, now, limits, freeDisk);
            Kept(me, w, s)
  {
    var s := ServeStore(me, w, frame, now, limits, freeDisk);
    var op := Relay.Store(me.account, me.device, frame, now, limits, freeDisk);
    if s != w {
      assert s.tables == Relay.Apply(w.tables, op);
      RelayStepIsSound(me, w, op);
      QuietStepIsSound(me, w.(tables := s.tables), s);
    }
  }

  lemma ServeSyncIsSound(me: Me, w: World, after: nat, statusAfter: nat)
    requires Sound(me, w)
    ensures var s := DoServeSync(me, w, after, statusAfter);
            Kept(me, w, s)
  {
    if Request(after, statusAfter) in w.net {
      SyncIsContiguous(me, w.tables, w.local.cursor, after, statusAfter, SYNC_LIMIT);
    }
  }

  lemma StoredRowIsOk(t: Tables, row: Row)
    requires Counters(t) && row in t.rows
    ensures PushOk(t, row)
  {
    forall r | r in t.rows && r.cursor == row.cursor ensures Relay.SameRow(row, r) {
      SameCursorSameRow(t.rows, row, r);
    }
  }

  lemma ServePushIsSound(me: Me, w: World, row: Row)
    requires Sound(me, w) && row in w.tables.rows
    ensures var s := w.(net := w.net + {Push(row)});
            Kept(me, w, s)
  {
    StoredRowIsOk(w.tables, row);
  }

  /** Whether a push is handled in a state where it is harmless. */
  ghost predicate SafeEvent(me: Me, w: World, e: Event) {
    e.HandlePush? ==> Step(me, w, e).committed == w.committed || NoGap(me, w, e.row)
  }

  lemma HandleReplyIsSound(me: Me, w: World, after: nat, batch: Batch, verdicts: seq<Verdict>)
    requires Sound(me, w) && ReplyOk(me, w.tables, w.local.cursor, after, batch) && |verdicts| == |batch.rows|
    ensures Sound(me, Handle(w, batch, verdicts))
    ensures Complete(me, w) ==> Complete(me, Handle(w, batch, verdicts))
  {
    HandleIsSound(me, w, batch, verdicts);
    if Complete(me, w) {
      ReplyIsComplete(me, w, after, batch, verdicts);
    }
  }

  lemma HandlePushIsSound(me: Me, w: World, row: Row, verdict: Verdict)
    requires Sound(me, w) && PushOk(w.tables, row)
    ensures var s := Handle(w, PushOf(row), [verdict]);
            Sound(me, s) && (Complete(me, w) && (s.committed == w.committed || NoGap(me, w, row)) ==> Complete(me, s))
  {
    assert forall r :: r in PushOf(row).rows ==> r.cursor < w.tables.nextCursor;
    HandleIsSound(me, w, PushOf(row), [verdict]);
    if Complete(me, w) {
      PushKeepsExactly(me, w, row, verdict);
    }
  }

  /** A step of the relay, not of this client. */
  predicate AtRelay(e: Event) {
    e.Elsewhere? || e.ServeSync? || e.ServePush? || e.ServeAck? || e.ServeFrame?
  }

  /** A step after which the relay's tables are those of one of its own operations. */
  lemma RelayOpIsSound(me: Me, w: World, s: World, op: Relay.RelayOp)
    requires Sound(me, w) && (Relay.AckBy(op, me.device).Some? ==> AckOf(op.id) in w.net)
    requires s == w.(tables := Relay.Apply(w.tables, op))
    ensures Kept(me, w, s)
  {
    RelayStepIsSound(me, w, op);
  }

  lemma ElsewhereIsSound(me: Me, w: World, op: Relay.RelayOp)
    requires Sound(me, w)
    ensures var s := DoElsewhere(me, w, op); Kept(me, w, s)
  {
    if !Mine(me, op) {
      RelayOpIsSound(me, w, DoElsewhere(me, w, op), op);
    }
  }

  lemma ServeAckIsSound(me: Me, w: World, id: EnvelopeId, now: int)
    requires Sound(me, w)
    ensures var s := DoServeAck(me, w, id, now); Kept(me, w, s)
  {
    if AckOf(id) in w.net {
      RelayOpIsSound(me, w, DoServeAck(me, w, id, now), Relay.Acknowledge(me.device, id, now));
    }
  }

  lemma ServePushEvent(me: Me, w: World, row: Row)
    requires Sound(me, w)
    ensures var s := DoServePush(me, w, row); Kept(me, w, s)
  {
    if row in w.tables.rows {
      ServePushIsSound(me, w, row);
    }
  }

  lemma ServeFrameEvent(me: Me, w: World, frame: seq<Wire>, now: int, limits: Limits, freeDisk: nat)
    requires Sound(me, w)
    ensures var s := DoServeFrame(me, w, frame, now, limits, freeDisk);
            Kept(me, w, s)
  {
    ServeFrameIsSound(me, w, frame, now, limits, freeDisk);
  }

  lemma RelayEventIsSound(me: Me, w: World, e: Event)
    requires Sound(me, w) && AtRelay(e)
    ensures Kept(me, w, Step(me, w, e))
  {
    match e
    case Elsewhere(op) => ElsewhereIsSound(me, w, op);
    case ServeSync(after, statusAfter) => ServeSyncIsSound(me, w, after, statusAfter);
    case ServePush(row) => ServePushEvent(me, w, row);
    case ServeAck(id, now) => ServeAckIsSound(me, w, id, now);
    case ServeFrame(frame, now, limits, freeDisk) => ServeFrameEvent(me, w, frame, now, limits, freeDisk);
  }

  lemma LocalStepIsQuiet(me: Me, w: World, e: Event)
    requires || e.Compose? || e.ComposeControl? || e.Resend? || e.HandleAccepted?
             || e.DeleteHere? || e.VerifyPeer? || e.NoteDelivered?
    ensures var s := Step(me, w, e);
            && s.tables == w.tables && s.committed == w.committed && s.local.cursor == w.local.cursor
            && forall p :: p in s.net && !p.Frame? && !p.Accepted? ==> p in w.net
  {
  }

  lemma RequestSyncIsSound(me: Me, w: World)
    requires Sound(me, w)
    ensures Sound(me, Step(me, w, RequestSync)) && (Complete(me, w) ==> Complete(me, Step(me, w, RequestSync)))
  {
  }

  lemma BatchEventIsSound(me: Me, w: World, e: Event)
    requires Sound(me, w) && (e.HandleReply? || e.HandlePush?)
    ensures Sound(me, Step(me, w, e))
    ensures Complete(me, w) && SafeEvent(me, w, e) ==> Complete(me, Step(me, w, e))
  {
    if Step(me, w, e) != w {
      match e
      case HandleReply(after, batch, verdicts) =>
        assert Reply(after, batch) in w.net;
        HandleReplyIsSound(me, w, after, batch, verdicts);
      case HandlePush(row, verdict) =>
        assert Push(row) in w.net;
        HandlePushIsSound(me, w, row, verdict);
    }
  }

  /** Every step keeps the world sound; every step but an unsafe push keeps it complete. */
  lemma StepIsSound(me: Me, w: World, e: Event)
    requires Sound(me, w)
    ensures Sound(me, Step(me, w, e))
    ensures Complete(me, w) && SafeEvent(me, w, e) ==> Complete(me, Step(me, w, e))
  {
    if AtRelay(e) {
      RelayEventIsSound(me, w, e);
    } else if e.HandleReply? || e.HandlePush? {
      BatchEventIsSound(me, w, e);
    } else if e.RequestSync? {
      RequestSyncIsSound(me, w);
    } else {
      LocalStepIsQuiet(me, w, e);
      QuietStepIsSound(me, w, Step(me, w, e));
    }
  }

  /**
   Over any run: the relay's invariant holds, rows are committed in strictly ascending cursor
   order (so no row twice), every ack and every delivery mark stands for a committed envelope.
   */
  lemma {:induction false} RunIsSound(me: Me, w: World, events: seq<Event>)
    requires Sound(me, w)
    ensures Sound(me, Run(me, w, events))
    decreases |events|
  {
    if events == [] {
    } else {
      StepIsSound(me, w, events[0]);
      RunIsSound(me, Step(me, w, events[0]), events[1..]);
    }
  }

  /** Every push of the run is handled where it is harmless. */
  ghost predicate SafeRun(me: Me, w: World, events: seq<Event>)
    decreases |events|
  {
    events != [] ==> SafeEvent(me, w, events[0]) && SafeRun(me, Step(me, w, events[0]), events[1..])
  }

  /** No loss: in a run whose pushes are harmless, what lies at or below the cursor was committed. */
  lemma {:induction false} SafeRunIsComplete(me: Me, w: World, events: seq<Event>)
    requires Sound(me, w) && Complete(me, w) && SafeRun(me, w, events)
    ensures Complete(me, Run(me, w, events))
    decreases |events|
  {
    if events == [] {
    } else {
      StepIsSound(me, w, events[0]);
      SafeRunIsComplete(me, Step(me, w, events[0]), events[1..]);
    }
  }

  lemma {:induction false} PullRunIsSafe(me: Me, w: World, events: seq<Event>)
    requires forall e :: e in events ==> !e.HandlePush?
    ensures SafeRun(me, w, events)
    decreases |events|
  {
    if events == [] {
    } else {
      PullRunIsSafe(me, Step(me, w, events[0]), events[1..]);
    }
  }

  lemma StartIsSound(me: Me, w: World)
    requires Start(me, w)
    ensures Sound(me, w)
  {
  }

  /** The pull path alone never loses an envelope, whatever is lost, late or repeated. */
  lemma PullRunIsComplete(me: Me, w: World, events: seq<Event>)
    requires Start(me, w) && forall e :: e in events ==> !e.HandlePush?
    ensures Sound(me, Run(me, w, events)) && Complete(me, Run(me, w, events))
  {
    PullRunIsSafe(me, w, events);
    RunIsSound(me, w, events);
    SafeRunIsComplete(me, w, events);
  }

  /** In every run, pushes included, rows are committed in cursor order, so no row twice. */
  lemma CommittedInOrder(me: Me, w: World, events: seq<Event>, i: nat, j: nat)
    requires Start(me, w) && i < j < |Run(me, w, events).committed|
    ensures Run(me, w, events).committed[i].cursor < Run(me, w, events).committed[j].cursor
  {
    RunIsSound(me, w, events);
  }
}
