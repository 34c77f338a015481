/** What a push over a gap costs, and why retention never does: only committed envelopes are removed. */
module DeliveryLoss {
  import opened Ids
  import opened RelayTables
  import opened RelayIntegrity
  import Relay = RelayRun
  import opened LocalTables
  import opened ClientSync
  import opened Delivery
  import opened DeliveryPull

  // ----- a skipped row is lost for good -----

  lemma StepCommitsAbove(me: Me, w: World, e: Event)
    ensures var s := Step(me, w, e);
            && w.local.cursor <= s.local.cursor
            && forall c :: c in s.committed ==> c in w.committed || c.cursor > w.local.cursor
  {
    if e.HandleReply? && |e.verdicts| == |e.batch.rows| {
      HandleCommitsAbove(w, e.batch, e.verdicts);
    } else if e.HandlePush? {
      HandleCommitsAbove(w, PushOf(e.row), [e.verdict]);
    }
  }

  lemma HandleCommitsAbove(w: World, batch: Batch, verdicts: seq<Verdict>)
    requires |verdicts| == |batch.rows|
    ensures var s := Handle(w, batch, verdicts);
            && w.local.cursor <= s.local.cursor
            && forall c :: c in s.committed ==> c in w.committed || c.cursor > w.local.cursor
  {
    BatchFacts(w.local, batch, verdicts);
  }

  /**
   Once the cursor has passed an uncommitted row, no continuation of the run commits that row. Its
   envelope can come back only under another cursor: `DeliveryOnce.LostUnlessStoredAgain`.
   */
  lemma {:induction false} LostForever(me: Me, w: World, events: seq<Event>, row: Row)
    requires row.cursor <= w.local.cursor && !Relay.Known(w.committed, row)
    ensures !Relay.Known(Run(me, w, events).committed, row)
    decreases |events|
  {
    if events == [] {
    } else {
      StepCommitsAbove(me, w, events[0]);
      LostForever(me, Step(me, w, events[0]), events[1..], row);
    }
  }

  // ----- a run that loses one -----

  const BOB := Me(1, 10)

  function Letter(n: nat): Wire {
    Wire(n, 100 + n, Conversation(1, 2), 1, 10, [7], 0, n)
  }

  function Held(n: nat): Row {
    Row(n, Letter(n), 2, 20, 0, None)
  }

  function Text(n: nat): Message {
    Message(Conversation(1, 2), 2, 2, n, Status.Delivered, true)
  }

  function Sends(n: nat): Logical {
    Logical(2, 20, 1, Conversation(1, 2), n, 0, None)
  }

  /** Two envelopes wait for Bob's device. */
  function Waiting(): World {
    World(
      Tables(
        map[1 := Account(true, Some(0), 1), 2 := Account(true, Some(0), 1)],
        map[10 := Device(1, false, false), 20 := Device(2, false, false)],
        {}, map[101 := Sends(1), 102 := Sends(2)], [Held(1), Held(2)], [], map[], map[2 := 2], 3, 1),
      BLANK, {}, [], map[], {}, {})
  }

  lemma WaitingCounts()
    ensures Counters(Waiting().tables) && Unique(Waiting().tables) && UsageExact(Waiting().tables)
  {
    var t := Waiting().tables;
    assert t.rows[0] == Held(1) && t.rows[1] == Held(2);
    assert BytesOf(t.rows, 2) == 2 by {
      assert t.rows[1..][0] == Held(2) && t.rows[1..][1..] == [];
    }
  }

  lemma WaitingAgrees()
    ensures ForeignKeys(Waiting().tables) && CrossTable(Waiting().tables)
  {
    var t := Waiting().tables;
    forall r | r in t.rows ensures RowKeys(t, r) && RowMatches(t, r) {
      assert r == Held(1) || r == Held(2);
    }
    forall id | id in t.logical ensures LogicalKeys(t, t.logical[id]) && LogicalMatches(t, t.logical[id]) {
      assert id == 101 || id == 102;
    }
  }

  lemma WaitingIsStart()
    ensures Start(BOB, Waiting())
  {
    WaitingCounts();
    WaitingAgrees();
    var t := Waiting().tables;
    assert Held(1) in t.rows && Held(2) in t.rows;
    assert EveryLogicalHasRow(t);
  }

  /** The second envelope is pushed while the sync request is under way; the reply then comes too late. */
  function Overtaken(): seq<Event> {
    [ RequestSync,
      ServePush(Held(2)),
      HandlePush(Held(2), Accept([], 2, Inbound(102, Text(2)), true)),
      ServeSync(0, 0),
      HandleReply(0, Batch([Held(1), Held(2)], 2, false, [], 0), [Stop([], 2), Stop([], 2)])
    ]
  }

  lemma PushStep(w: World)
    requires w.local == BLANK && w.committed == [] && Push(Held(2)) in w.net && w.composed == map[]
    ensures var s := Step(BOB, w, Overtaken()[2]);
            s.local.cursor == 2 && s.committed == [Held(2)] && s.tables == w.tables && w.net <= s.net
  {
    var verdict := Accept([], 2, Inbound(102, Text(2)), true);
    var one := HandleRow(BLANK, Held(2), verdict);
    assert one.done == [Held(2)] && one.local.cursor == 2 && one.ok;
    var h := HandleRows(BLANK, [Held(2)], [verdict]);
    assert h == Prepend(one, HandleRows(one.local, [], [])) by {
      assert [Held(2)][1..] == [] && [verdict][1..] == [];
    }
    assert ApplyStatuses(BLANK, []) == BLANK;
  }

  /**
   A live push can lose a stored row: from a device that was just set up, this run ends with the
   first row stored, at or below the cursor, and committed in no continuation.
   */
  lemma PushCanLose(more: seq<Event>)
    ensures Start(BOB, Waiting())
    ensures var s := Run(BOB, Waiting(), Overtaken());
            && Held(1) in s.tables.rows && Held(1).cursor <= s.local.cursor && !Complete(BOB, s)
            && !Relay.Known(Run(BOB, s, more).committed, Held(1))
  {
    WaitingIsStart();
    OvertakenEnds();
    var s := Run(BOB, Waiting(), Overtaken());
    assert !Relay.Known(s.committed, Held(1));
    LostForever(BOB, s, more, Held(1));
  }

  lemma LateReplyStep(w: World)
    requires w.local.cursor == 2
    ensures var s := Step(BOB, w, Overtaken()[4]);
            s.local.cursor == 2 && s.committed == w.committed && s.tables == w.tables
  {
    var batch := Batch([Held(1), Held(2)], 2, false, [], 0);
    var verdicts := [Stop([], 2), Stop([], 2)];
    StaleBatchIsIgnored(w.local, batch.rows, verdicts);
  }

  lemma OvertakenEnds()
    ensures var s := Run(BOB, Waiting(), Overtaken());
            s.tables == Waiting().tables && s.local.cursor == 2 && s.committed == [Held(2)]
    ensures Held(1) in Waiting().tables.rows
  {
    var e := Overtaken();
    var w1 := Step(BOB, Waiting(), e[0]);
    var w2 := Step(BOB, w1, e[1]);
    assert Held(2) in w1.tables.rows && Held(1) in w1.tables.rows;
    var w3 := Step(BOB, w2, e[2]);
    PushStep(w2);
    var w4 := Step(BOB, w3, e[3]);
    LateReplyStep(w4);
    RunFive(BOB, Waiting(), e);
  }

  lemma RunFive(me: Me, w: World, e: seq<Event>)
    requires |e| == 5
    ensures Run(me, w, e) == Step(me, Step(me, Step(me, Step(me, Step(me, w, e[0]), e[1]), e[2]), e[3]), e[4])
  {
    assert Run(me, w, e) == Run(me, Step(me, w, e[0]), e[1..]);
    var r1, w1 := e[1..], Step(me, w, e[0]);
    assert r1[0] == e[1] && Run(me, w1, r1) == Run(me, Step(me, w1, e[1]), r1[1..]);
    var r2, w2 := r1[1..], Step(me, w1, e[1]);
    assert r2[0] == e[2] && Run(me, w2, r2) == Run(me, Step(me, w2, e[2]), r2[1..]);
    var r3, w3 := r2[1..], Step(me, w2, e[2]);
    assert r3[0] == e[3] && Run(me, w3, r3) == Run(me, Step(me, w3, e[3]), r3[1..]);
    var r4, w4 := r3[1..], Step(me, w3, e[3]);
    assert r4[0] == e[4] && Run(me, w4, r4) == Run(me, Step(me, w4, e[4]), r4[1..]);
  }

  // ----- retention -----

  /** In every reachable state, pushes included, a delivered mark stands for a committed envelope. */
  lemma DeliveredMeansCommitted(me: Me, w: World, events: seq<Event>, row: Row)
    requires Start(me, w)
    requires row in Run(me, w, events).tables.rows && row.wire.recipientDevice == me.device && row.deliveredAt.Some?
    ensures CommittedId(Run(me, w, events).committed, row.wire.envelopeId)
  {
    RunIsSound(me, w, events);
  }

  /** Retention cleanup removes no envelope that its recipient has not committed. */
  lemma CleanupDropsOnlyCommitted(me: Me, w: World, events: seq<Event>, cutoff: int, limit: nat, row: Row)
    requires Start(me, w)
    requires row in Run(me, w, events).tables.rows && row.wire.recipientDevice == me.device
    requires row !in CleanupDelivered(Run(me, w, events).tables, cutoff, limit).rows
    ensures CommittedId(Run(me, w, events).committed, row.wire.envelopeId)
  {
    RunIsSound(me, w, events);
    var t := Run(me, w, events).tables;
    var batch := Take(ExpiredRows(t.rows, cutoff), Clamp(limit, 1, 10_000));
    assert row.cursor in Cursors(batch);
    var r :| r in batch && r.cursor == row.cursor;
    assert r in ExpiredRows(t.rows, cutoff);
    SameCursorSameRow(t.rows, r, row);
  }

  /** So does pruning a conversation of its delivered messages only. */
  lemma PruneDropsOnlyCommitted(me: Me, w: World, events: seq<Event>, c: Conversation, cutoff: int, row: Row)
    requires Start(me, w)
    requires row in Run(me, w, events).tables.rows && row.wire.recipientDevice == me.device
    requires row !in PruneConversation(Run(me, w, events).tables, c, cutoff, true).rows
    ensures CommittedId(Run(me, w, events).committed, row.wire.envelopeId)
  {
    RunIsSound(me, w, events);
    PruneRemovesTargets(Run(me, w, events).tables, c, cutoff, true);
  }
}
