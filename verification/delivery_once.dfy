/** How often an envelope is committed: at most once while the relay keeps it, and again only after it was dropped. */
module DeliveryOnce {
  import opened Ids
  import opened RelayTables
  import opened RelayIntegrity
  import opened RelayStore
  import Receipts = RelayReceipts
  import Relay = RelayRun
  import opened ClientSync
  import opened Delivery
  import opened DeliveryPull
  import opened DeliveryLoss

  // ----- how an envelope id enters the relay's tables -----

  ghost predicate StoredAt(t: Tables, cursor: nat, id: EnvelopeId) {
    exists r :: r in t.rows && r.cursor == cursor && r.wire.envelopeId == id
  }

  /** The relay stores no row with this envelope id. */
  ghost predicate Vacant(t: Tables, id: EnvelopeId) {
    forall r :: r in t.rows ==> r.wire.envelopeId != id
  }

  lemma StoreKeepsRows(t: Tables, op: Relay.RelayOp, r: Row)
    requires op.Store? && r in t.rows
    ensures r in Relay.Apply(t, op).rows
  {
    var s := Relay.Apply(t, op);
    if s != t {
      var tx, active := StoredSteps(t, op.sender, op.device, op.envelopes, op.now, op.limits, op.freeDisk);
      InsertAllAppends(tx, op.sender, op.device, active, op.now);
      var i :| 0 <= i < |t.rows| && t.rows[i] == r;
      assert s.rows[..|t.rows|][i] == s.rows[i];
    }
  }

  /** A row that an operation adds has an envelope id that no row had, and a cursor never used. */
  lemma NewRowNeedsVacancy(t: Tables, op: Relay.RelayOp, r: Row)
    requires Inv(t) && r in Relay.Apply(t, op).rows && !StoredAt(t, r.cursor, r.wire.envelopeId)
    ensures Vacant(t, r.wire.envelopeId) && t.nextCursor <= r.cursor
  {
    var s := Relay.Apply(t, op);
    Relay.ApplyKeepsInv(t, op);
    Relay.ApplyFollows(t, op, 0);
    assert !Relay.Known(t.rows, r);
    if op.Store? {
      forall q | q in t.rows ensures q.wire.envelopeId != r.wire.envelopeId {
        StoreKeepsRows(t, op, q);
      }
    } else {
      Relay.OnlyStoresAdvance(t, op);
    }
  }

  predicate Removing(e: Event) {
    e.Elsewhere? && (e.op.Retire? || e.op.Prune? || (e.op.Membership? && Relay.Removes(e.op.op)))
  }

  /** A step leaves the relay's tables alone or applies one operation to them. */
  lemma StepTables(me: Me, w: World, e: Event) returns (op: Relay.RelayOp)
    ensures Step(me, w, e).tables == w.tables || Step(me, w, e).tables == Relay.Apply(w.tables, op)
    ensures Removing(Elsewhere(op)) ==> Removing(e)
  {
    op := if e.Elsewhere? then e.op
          else if e.ServeFrame? then Relay.Store(me.account, me.device, e.frame, e.now, e.limits, e.freeDisk)
          else Relay.Acknowledge(me.device, if e.ServeAck? then e.id else 0, if e.ServeAck? then e.now else 0);
    if AtRelay(e) {
    } else if !e.HandleReply? && !e.HandlePush? && !e.RequestSync? {
      LocalStepIsQuiet(me, w, e);
    }
  }

  /** An accepted batch adds a row for an envelope if and only if no stored row has its id. */
  lemma StoreRenewsExactly(
    t: Tables, sender: AccountId, device: DeviceId, envelopes: seq<Wire>, now: int, limits: Limits, freeDisk: nat, e: Wire)
    requires Inv(t) && IsActive(t, sender, device) && e in ActiveWires(t, envelopes)
    requires StoreEnvelopes(t, sender, device, envelopes, now, limits, freeDisk).Stored?
    ensures var s := StoreEnvelopes(t, sender, device, envelopes, now, limits, freeDisk).tables;
            Vacant(t, e.envelopeId)
            <==> exists r :: r in s.rows && r.wire.envelopeId == e.envelopeId && r.cursor >= t.nextCursor
  {
    var op := Relay.Store(sender, device, envelopes, now, limits, freeDisk);
    var s := StoreEnvelopes(t, sender, device, envelopes, now, limits, freeDisk).tables;
    StoredBatchIsStillThere(t, sender, device, envelopes, now, limits, freeDisk);
    var r :| r in s.rows && r.wire == e;
    if Vacant(t, e.envelopeId) {
      NewRowNeedsVacancy(t, op, r);
    } else if exists q :: q in s.rows && q.wire.envelopeId == e.envelopeId && q.cursor >= t.nextCursor {
      var q :| q in s.rows && q.wire.envelopeId == e.envelopeId && q.cursor >= t.nextCursor;
      NewRowNeedsVacancy(t, op, q);
    }
  }

  // ----- where an envelope id can be seen -----

  /** A row with this cursor and envelope id is stored, under way to the device, or committed there. */
  ghost predicate Seen(w: World, cursor: nat, id: EnvelopeId) {
    || StoredAt(w.tables, cursor, id)
    || (exists r :: r in w.committed && r.cursor == cursor && r.wire.envelopeId == id)
    || UnderWay(w.net, cursor, id)
  }

  ghost predicate UnderWay(net: set<Packet>, cursor: nat, id: EnvelopeId) {
    || (exists r :: Push(r) in net && r.cursor == cursor && r.wire.envelopeId == id)
    || (exists after, batch, r ::
          Reply(after, batch) in net && r in batch.rows && r.cursor == cursor && r.wire.envelopeId == id)
  }

  /** What a step may show for the first time: a row stored in this very step, under an id that was vacant. */
  ghost predicate Fresh(w: World, s: World, cursor: nat, id: EnvelopeId) {
    StoredAt(s.tables, cursor, id) && Vacant(w.tables, id) && w.tables.nextCursor <= cursor
  }

  lemma SeenIsBelow(me: Me, w: World, cursor: nat, id: EnvelopeId)
    requires Sound(me, w) && Seen(w, cursor, id)
    ensures cursor < w.tables.nextCursor
  {
    if exists r :: r in w.committed && r.cursor == cursor && r.wire.envelopeId == id {
      var i :| 0 <= i < |w.committed| && w.committed[i].cursor == cursor;
      assert i < |w.committed| - 1 ==> w.committed[i].cursor < w.committed[|w.committed| - 1].cursor;
    }
  }

  lemma RelayStepSees(w: World, s: World, op: Relay.RelayOp, cursor: nat, id: EnvelopeId)
    requires Inv(w.tables) && s.tables == Relay.Apply(w.tables, op) && s.committed == w.committed
    requires UnderWay(s.net, cursor, id) ==> UnderWay(w.net, cursor, id)
    requires Seen(s, cursor, id)
    ensures Seen(w, cursor, id) || Fresh(w, s, cursor, id)
  {
    if StoredAt(s.tables, cursor, id) && !StoredAt(w.tables, cursor, id) {
      var r :| r in s.tables.rows && r.cursor == cursor && r.wire.envelopeId == id;
      NewRowNeedsVacancy(w.tables, op, r);
    }
  }

  lemma HandleSees(w: World, batch: Batch, verdicts: seq<Verdict>, cursor: nat, id: EnvelopeId)
    requires |verdicts| == |batch.rows|
    requires forall r :: r in batch.rows ==> UnderWay(w.net, r.cursor, r.wire.envelopeId)
    requires Seen(Handle(w, batch, verdicts), cursor, id)
    ensures Seen(w, cursor, id)
  {
    BatchFacts(w.local, batch, verdicts);
    var s := Handle(w, batch, verdicts);
    if exists r :: r in s.committed && r.cursor == cursor && r.wire.envelopeId == id {
      var r :| r in s.committed && r.cursor == cursor && r.wire.envelopeId == id;
      assert r in w.committed || r in batch.rows;
    }
  }

  lemma BatchEventSees(me: Me, w: World, e: Event, cursor: nat, id: EnvelopeId)
    requires (e.HandleReply? || e.HandlePush?) && Seen(Step(me, w, e), cursor, id)
    ensures Seen(w, cursor, id)
  {
    if Step(me, w, e) != w {
      match e
      case HandleReply(after, batch, verdicts) =>
        assert Reply(after, batch) in w.net;
        HandleSees(w, batch, verdicts, cursor, id);
      case HandlePush(row, verdict) =>
        assert Push(row) in w.net;
        HandleSees(w, PushOf(row), [verdict], cursor, id);
    }
  }

  lemma ReplyRowsAreStored(t: Tables, account: AccountId, device: DeviceId, after: nat, statusAfter: nat)
    ensures forall r :: r in Sync(t, account, device, after, statusAfter, SYNC_LIMIT).rows ==> r in t.rows
  {
    Receipts.SyncIs(t, account, device, after, statusAfter, SYNC_LIMIT);
  }

  lemma OneMoreReply(net: set<Packet>, after: nat, batch: Batch, cursor: nat, id: EnvelopeId)
    requires UnderWay(net + {Reply(after, batch)}, cursor, id)
    ensures UnderWay(net, cursor, id) || exists r :: r in batch.rows && r.cursor == cursor && r.wire.envelopeId == id
  {
  }

  lemma ServeSyncSees(me: Me, w: World, after: nat, statusAfter: nat, cursor: nat, id: EnvelopeId)
    requires Seen(DoServeSync(me, w, after, statusAfter), cursor, id)
    ensures Seen(w, cursor, id)
  {
    if Request(after, statusAfter) in w.net {
      var batch := Sync(w.tables, me.account, me.device, after, statusAfter, SYNC_LIMIT);
      ReplyRowsAreStored(w.tables, me.account, me.device, after, statusAfter);
      if UnderWay(w.net + {Reply(after, batch)}, cursor, id) {
        OneMoreReply(w.net, after, batch, cursor, id);
      }
    }
  }

  lemma ServePushSees(me: Me, w: World, row: Row, cursor: nat, id: EnvelopeId)
    requires Seen(DoServePush(me, w, row), cursor, id)
    ensures Seen(w, cursor, id)
  {
  }

  lemma TablesEventFrame(me: Me, w: World, e: Event)
    requires e.Elsewhere? || e.ServeAck? || e.ServeFrame?
    ensures var s := Step(me, w, e); s.committed == w.committed && forall p :: p in s.net && !p.Accepted? ==> p in w.net
  {
  }

  /** The other steps of the relay change its tables and put no row on the way. */
  lemma TablesEventSees(me: Me, w: World, e: Event, cursor: nat, id: EnvelopeId)
    requires Inv(w.tables) && (e.Elsewhere? || e.ServeAck? || e.ServeFrame?) && Seen(Step(me, w, e), cursor, id)
    ensures Seen(w, cursor, id) || Fresh(w, Step(me, w, e), cursor, id)
  {
    var s := Step(me, w, e);
    var op := StepTables(me, w, e);
    TablesEventFrame(me, w, e);
    if s.tables != w.tables {
      RelayStepSees(w, s, op, cursor, id);
    }
  }

  lemma RelayEventSees(me: Me, w: World, e: Event, cursor: nat, id: EnvelopeId)
    requires Inv(w.tables) && AtRelay(e) && Seen(Step(me, w, e), cursor, id)
    ensures Seen(w, cursor, id) || Fresh(w, Step(me, w, e), cursor, id)
  {
    match e
    case ServeSync(after, statusAfter) => ServeSyncSees(me, w, after, statusAfter, cursor, id);
    case ServePush(row) => ServePushSees(me, w, row, cursor, id);
    case _ => TablesEventSees(me, w, e, cursor, id);
  }

  /** A step shows nothing new but what the relay stores in it, under an envelope id it did not have. */
  lemma StepSees(me: Me, w: World, e: Event, cursor: nat, id: EnvelopeId)
    requires Inv(w.tables) && Seen(Step(me, w, e), cursor, id)
    ensures Seen(w, cursor, id) || Fresh(w, Step(me, w, e), cursor, id)
  {
    if AtRelay(e) {
      RelayEventSees(me, w, e, cursor, id);
    } else if e.HandleReply? || e.HandlePush? {
      BatchEventSees(me, w, e, cursor, id);
    } else if e.RequestSync? {
    } else {
      LocalStepIsQuiet(me, w, e);
    }
  }

  // ----- the same envelope id under two cursors -----

  /** At some moment of the run the relay had handed out `low` but not `high`, and stored no row with this id. */
  ghost predicate Dropped(me: Me, w: World, events: seq<Event>, id: EnvelopeId, low: nat, high: nat) {
    exists k: nat :: k <= |events| && DroppedAt(me, w, events, k, id, low, high)
  }

  ghost predicate DroppedAt(me: Me, w: World, events: seq<Event>, k: nat, id: EnvelopeId, low: nat, high: nat)
    requires k <= |events|
  {
    var t := Run(me, w, events[..k]).tables;
    Vacant(t, id) && low < t.nextCursor <= high
  }

  lemma DroppedNow(me: Me, w: World, events: seq<Event>, id: EnvelopeId, low: nat, high: nat)
    requires Vacant(w.tables, id) && low < w.tables.nextCursor <= high
    ensures Dropped(me, w, events, id, low, high)
  {
    assert events[..0] == [];
    assert DroppedAt(me, w, events, 0, id, low, high);
  }

  lemma DroppedLater(me: Me, w: World, events: seq<Event>, id: EnvelopeId, low: nat, high: nat)
    requires events != [] && Dropped(me, Step(me, w, events[0]), events[1..], id, low, high)
    ensures Dropped(me, w, events, id, low, high)
  {
    var k: nat :| k <= |events[1..]| && DroppedAt(me, Step(me, w, events[0]), events[1..], k, id, low, high);
    assert events[..k + 1][0] == events[0] && events[..k + 1][1..] == events[1..][..k];
    assert DroppedAt(me, w, events, k + 1, id, low, high);
  }

  /** Two cursors seen with one envelope id were both seen at the start, or the id was dropped in between. */
  lemma {:induction false} SeenTwice(me: Me, w: World, events: seq<Event>, id: EnvelopeId, low: nat, high: nat)
    requires Sound(me, w) && low < high
    requires Seen(Run(me, w, events), low, id) && Seen(Run(me, w, events), high, id)
    ensures (Seen(w, low, id) && Seen(w, high, id)) || Dropped(me, w, events, id, low, high)
    decreases |events|
  {
    if events == [] {
    } else {
      var s := Step(me, w, events[0]);
      StepIsSound(me, w, events[0]);
      SeenTwice(me, s, events[1..], id, low, high);
      if Dropped(me, s, events[1..], id, low, high) {
        DroppedLater(me, w, events, id, low, high);
      } else {
        StepSees(me, w, events[0], low, id);
        StepSees(me, w, events[0], high, id);
        BothSeen(me, w, s, events, id, low, high);
      }
    }
  }

  lemma BothSeen(me: Me, w: World, s: World, events: seq<Event>, id: EnvelopeId, low: nat, high: nat)
    requires Sound(me, w) && Sound(me, s) && low < high
    requires Seen(w, low, id) || Fresh(w, s, low, id)
    requires Seen(w, high, id) || Fresh(w, s, high, id)
    ensures (Seen(w, low, id) && Seen(w, high, id)) || Dropped(me, w, events, id, low, high)
  {
    if Seen(w, high, id) {
      SeenIsBelow(me, w, high, id);
    } else if Seen(w, low, id) {
      SeenIsBelow(me, w, low, id);
      DroppedNow(me, w, events, id, low, high);
    }
  }

  lemma StartSeesOnce(me: Me, w: World, id: EnvelopeId, low: nat, high: nat)
    requires Start(me, w) && Seen(w, low, id) && Seen(w, high, id)
    ensures low == high
  {
  }

  /**
   Two commits of one envelope id: in every run, pushes included, the relay had dropped the earlier
   row before it stored the later one.
   */
  lemma RecommitNeedsRemoval(me: Me, w: World, events: seq<Event>, i: nat, j: nat)
    requires Start(me, w) && i < j < |Run(me, w, events).committed|
    requires var committed := Run(me, w, events).committed;
             committed[i].wire.envelopeId == committed[j].wire.envelopeId
    ensures var committed := Run(me, w, events).committed;
            Dropped(me, w, events, committed[i].wire.envelopeId, committed[i].cursor, committed[j].cursor)
  {
    var end := Run(me, w, events);
    var early, late := end.committed[i], end.committed[j];
    CommittedInOrder(me, w, events, i, j);
    StartIsSound(me, w);
    assert Seen(end, early.cursor, early.wire.envelopeId) && Seen(end, late.cursor, early.wire.envelopeId);
    SeenTwice(me, w, events, early.wire.envelopeId, early.cursor, late.cursor);
    if !Dropped(me, w, events, early.wire.envelopeId, early.cursor, late.cursor) {
      StartSeesOnce(me, w, early.wire.envelopeId, early.cursor, late.cursor);
    }
  }

  // ----- runs in which the relay removes nothing -----

  lemma AckKeepsStored(t: Tables, device: DeviceId, acked: EnvelopeId, now: int, r: Row)
    requires UniqueIds(t.rows) && r in t.rows
    ensures StoredAt(Ack(t, device, acked, now).0, r.cursor, r.wire.envelopeId)
  {
    AckMarksOnlyItsRow(t, device, acked, now);
    var s := Ack(t, device, acked, now).0;
    var i :| 0 <= i < |t.rows| && t.rows[i] == r;
    assert s.rows[i] in s.rows;
  }

  lemma ApplyKeepsStored(t: Tables, op: Relay.RelayOp, r: Row)
    requires Inv(t) && r in t.rows && !Removing(Elsewhere(op))
    ensures StoredAt(Relay.Apply(t, op), r.cursor, r.wire.envelopeId)
  {
    match op
    case Store(_, _, _, _, _, _) => StoreKeepsRows(t, op, r);
    case Acknowledge(device, acked, now) => AckKeepsStored(t, device, acked, now, r);
    case Membership(m) =>
      Relay.MembershipReshapes(t, m);
    case Aside(side) => Relay.SideReshapes(t, side);
  }

  lemma StepKeepsStored(me: Me, w: World, e: Event, cursor: nat, id: EnvelopeId)
    requires Inv(w.tables) && StoredAt(w.tables, cursor, id) && !Removing(e)
    ensures StoredAt(Step(me, w, e).tables, cursor, id)
  {
    var r :| r in w.tables.rows && r.cursor == cursor && r.wire.envelopeId == id;
    var op := StepTables(me, w, e);
    ApplyKeepsStored(w.tables, op, r);
  }

  /** Everything seen is still stored. */
  ghost predicate AllStored(w: World) {
    forall cursor, id :: Seen(w, cursor, id) ==> StoredAt(w.tables, cursor, id)
  }

  lemma {:induction false} RunKeepsStored(me: Me, w: World, events: seq<Event>)
    requires Sound(me, w) && AllStored(w) && forall e :: e in events ==> !Removing(e)
    ensures Sound(me, Run(me, w, events)) && AllStored(Run(me, w, events))
    decreases |events|
  {
    if events == [] {
    } else {
      var s := Step(me, w, events[0]);
      StepIsSound(me, w, events[0]);
      forall cursor, id | Seen(s, cursor, id) ensures StoredAt(s.tables, cursor, id) {
        StepSees(me, w, events[0], cursor, id);
        if Seen(w, cursor, id) {
          StepKeepsStored(me, w, events[0], cursor, id);
        }
      }
      RunKeepsStored(me, s, events[1..]);
    }
  }

  /** While the relay removes nothing, each envelope is committed at most once, by its id. */
  lemma CommittedOnce(me: Me, w: World, events: seq<Event>, i: nat, j: nat)
    requires Start(me, w) && forall e :: e in events ==> !Removing(e)
    requires i < j < |Run(me, w, events).committed|
    ensures Run(me, w, events).committed[i].wire.envelopeId != Run(me, w, events).committed[j].wire.envelopeId
  {
    StartIsSound(me, w);
    CommittedInOrder(me, w, events, i, j);
    RunKeepsStored(me, w, events);
    var end := Run(me, w, events);
    var early, late := end.committed[i], end.committed[j];
    assert Seen(end, early.cursor, early.wire.envelopeId) && Seen(end, late.cursor, late.wire.envelopeId);
  }

  // ----- a skipped envelope -----

  /** A stored row has the highest cursor seen with its envelope id. */
  ghost predicate Newest(w: World) {
    forall r, cursor: nat :: r in w.tables.rows && Seen(w, cursor, r.wire.envelopeId) ==> cursor <= r.cursor
  }

  lemma StepStores(me: Me, w: World, e: Event, r: Row)
    requires Inv(w.tables) && r in Step(me, w, e).tables.rows
    ensures var id := r.wire.envelopeId;
            StoredAt(w.tables, r.cursor, id) || (Vacant(w.tables, id) && w.tables.nextCursor <= r.cursor)
  {
    var op := StepTables(me, w, e);
    if Step(me, w, e).tables != w.tables && !StoredAt(w.tables, r.cursor, r.wire.envelopeId) {
      NewRowNeedsVacancy(w.tables, op, r);
    }
  }

  lemma NewestStays(me: Me, w: World, e: Event, r: Row, cursor: nat)
    requires Sound(me, w) && Newest(w) && Sound(me, Step(me, w, e))
    requires r in Step(me, w, e).tables.rows && Seen(Step(me, w, e), cursor, r.wire.envelopeId)
    ensures cursor <= r.cursor
  {
    StepStores(me, w, e, r);
    StepSees(me, w, e, cursor, r.wire.envelopeId);
    if Seen(w, cursor, r.wire.envelopeId) {
      SeenIsBelow(me, w, cursor, r.wire.envelopeId);
    }
  }

  lemma {:induction false} RunKeepsNewest(me: Me, w: World, events: seq<Event>)
    requires Sound(me, w) && Newest(w)
    ensures Sound(me, Run(me, w, events)) && Newest(Run(me, w, events))
    decreases |events|
  {
    if events == [] {
    } else {
      var s := Step(me, w, events[0]);
      StepIsSound(me, w, events[0]);
      forall r, cursor: nat | r in s.tables.rows && Seen(s, cursor, r.wire.envelopeId) ensures cursor <= r.cursor {
        NewestStays(me, w, events[0], r, cursor);
      }
      RunKeepsNewest(me, s, events[1..]);
    }
  }

  /** Nothing above `high` has been seen under this envelope id. */
  ghost predicate SeenUpTo(w: World, id: EnvelopeId, high: nat) {
    forall c: nat :: Seen(w, c, id) ==> c <= high
  }

  lemma NextCursorGrows(me: Me, w: World, e: Event)
    requires Inv(w.tables)
    ensures w.tables.nextCursor <= Step(me, w, e).tables.nextCursor
  {
    var op := StepTables(me, w, e);
    Relay.ApplyFollows(w.tables, op, 0);
  }

  /** What shows up in the course of a run was stored when the relay had no row with its id. */
  lemma {:induction false} ShowsUpAfterDrop(me: Me, w: World, events: seq<Event>, id: EnvelopeId, low: nat, high: nat)
    requires Sound(me, w) && low < w.tables.nextCursor
    requires !Seen(w, high, id) && Seen(Run(me, w, events), high, id)
    ensures Dropped(me, w, events, id, low, high)
    decreases |events|
  {
    var s := Step(me, w, events[0]);
    if Seen(s, high, id) {
      StepSees(me, w, events[0], high, id);
      DroppedNow(me, w, events, id, low, high);
    } else {
      StepIsSound(me, w, events[0]);
      NextCursorGrows(me, w, events[0]);
      ShowsUpAfterDrop(me, s, events[1..], id, low, high);
      DroppedLater(me, w, events, id, low, high);
    }
  }

  lemma {:induction false} CommitsAboveCursor(me: Me, w: World, events: seq<Event>)
    ensures forall c :: c in Run(me, w, events).committed ==> c in w.committed || c.cursor > w.local.cursor
    decreases |events|
  {
    if events == [] {
    } else {
      StepCommitsAbove(me, w, events[0]);
      CommitsAboveCursor(me, Step(me, w, events[0]), events[1..]);
    }
  }

  lemma NewestBefore(me: Me, w: World, before: seq<Event>, row: Row)
    requires Start(me, w) && row in Run(me, w, before).tables.rows
    ensures Sound(me, Run(me, w, before)) && SeenUpTo(Run(me, w, before), row.wire.envelopeId, row.cursor)
  {
    StartIsSound(me, w);
    StartIsNewest(me, w);
    RunKeepsNewest(me, w, before);
  }

  lemma StartIsNewest(me: Me, w: World)
    requires Start(me, w)
    ensures Newest(w)
  {
    forall r, cursor: nat | r in w.tables.rows && Seen(w, cursor, r.wire.envelopeId) ensures cursor <= r.cursor {
      assert StoredAt(w.tables, r.cursor, r.wire.envelopeId);
      StartSeesOnce(me, w, r.wire.envelopeId, cursor, r.cursor);
    }
  }

  /**
   A stored envelope that the cursor has passed uncommitted can still arrive in one way only: the
   relay drops it and then stores it again.
   */
  lemma LostUnlessStoredAgain(me: Me, w: World, before: seq<Event>, after: seq<Event>, row: Row)
    requires Start(me, w)
    requires var s := Run(me, w, before);
             row in s.tables.rows && row.cursor <= s.local.cursor && !CommittedId(s.committed, row.wire.envelopeId)
    requires CommittedId(Run(me, Run(me, w, before), after).committed, row.wire.envelopeId)
    ensures exists c :: c in Run(me, Run(me, w, before), after).committed && c.wire.envelopeId == row.wire.envelopeId
                        && Dropped(me, Run(me, w, before), after, row.wire.envelopeId, row.cursor, c.cursor)
  {
    var id, s := row.wire.envelopeId, Run(me, w, before);
    NewestBefore(me, w, before, row);
    CommitsAboveCursor(me, s, after);
    var c :| c in Run(me, s, after).committed && c.wire.envelopeId == id;
    assert c !in s.committed;
    assert Seen(Run(me, s, after), c.cursor, id);
    ShowsUpAfterDrop(me, s, after, id, row.cursor, c.cursor);
  }
}
