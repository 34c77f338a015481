/**
 A run that commits one envelope twice. Bob's device pulls two envelopes and acknowledges them; retention
 drops the first; Alice's device, which missed the acceptance, sends it again; the relay stores it under
 a new cursor, and Bob's device pulls it once more.
 */
module DeliveryAgain {
  import opened Ids
  import opened Sums
  import opened RelayTables
  import opened RelayStore
  import Relay = RelayRun
  import opened LocalTables
  import opened ClientSync
  import opened Delivery
  import opened DeliveryLoss

  const LIMITS := Limits(10, 10, 0)

  function Taken(n: nat): Verdict {
    Accept([], 2, Inbound(100 + n, Text(n)), true)
  }

  /** The two envelopes that wait at the start. */
  const BOTH := Batch([Held(1), Held(2)], 2, false, [], 0)

  /** The first envelope once more, under the next cursor. */
  const AGAIN := Row(3, Letter(1), 2, 20, 7, None)

  const ONE := Batch([AGAIN], 3, false, [], 0)

  /** Bob's device pulls both envelopes. */
  function Pulled(): seq<Event> {
    [RequestSync, ServeSync(0, 0), HandleReply(0, BOTH, [Taken(1), Taken(2)])]
  }

  /** Its ack lets retention drop the first one, which Alice's device then sends again. */
  function Renewing(): seq<Event> {
    [ ServeAck(1, 5),
      Elsewhere(Relay.Retire(10, 100)),
      Elsewhere(Relay.Store(2, 20, [Letter(1)], 7, LIMITS, 0)) ]
  }

  function PulledAgain(): seq<Event> {
    [RequestSync, ServeSync(2, 0), HandleReply(2, ONE, [Taken(1)])]
  }

  // ----- the relay's tables along the run -----

  function AckedFirst(): Tables {
    Waiting().tables.(
      logical := map[101 := Sends(1).(deliveredAt := Some(5)), 102 := Sends(2)],
      rows := [Held(1).(deliveredAt := Some(5)), Held(2)],
      updates := [Update(1, 2, 101, 5)],
      nextUpdate := 2)
  }

  function Cleaned(): Tables {
    Waiting().tables.(
      logical := map[102 := Sends(2)], rows := [Held(2)], updates := [], usage := map[2 := 1], nextUpdate := 2)
  }

  function Renewed(): Tables {
    Cleaned().(
      logical := map[102 := Sends(2), 101 := Sends(1).(acceptedAt := 7)],
      rows := [Held(2), AGAIN], usage := map[2 := 2], nextCursor := 4)
  }

  lemma AckStep()
    ensures Relay.Apply(Waiting().tables, Relay.Acknowledge(10, 1, 5)) == AckedFirst()
  {
    var t := Waiting().tables;
    assert t.rows[1..] == [Held(2)];
    assert Lookup(t.rows, 1) == Some(Held(1));
    var marked := MarkDelivered(t.rows, 10, 1, 5);
    assert marked == [Held(1).(deliveredAt := Some(5)), Held(2)];
  }

  lemma CleanStep()
    ensures Relay.Apply(AckedFirst(), Relay.Retire(10, 100)) == Cleaned()
  {
    var t := AckedFirst();
    var first := t.rows[0];
    assert t.rows[1..] == [Held(2)] && [Held(2)][1..] == [];
    assert ExpiredRows(t.rows, 10) == [first];
    assert Cursors([first]) == {1};
    assert Without(t.rows, {1}) == [Held(2)];
    Refunded(t.usage, first);
    assert LiveIds([Held(2)]) == {102};
    assert KeepUpdates(t.updates, {102}) == [];
  }

  lemma Refunded(usage: map<AccountId, int>, first: Row)
    requires usage == map[2 := 2] && first.cursor == 1 && first.senderAccount == 2 && |first.wire.ciphertext| == 1
    ensures RefundAll(usage, [first, Held(2)], {1}) == map[2 := 1]
  {
    var rows := [first, Held(2)];
    assert Refund(usage, first) == map[2 := 1];
    assert rows[1..] == [Held(2)] && [Held(2)][1..] == [];
    assert RefundAll(map[2 := 1], [Held(2)], {1}) == RefundAll(map[2 := 1], [], {1});
  }

  lemma BatchPasses()
    ensures CheckBatch(2, [Letter(1)]).None? && PeerOf(2, [Letter(1)]) == 1
    ensures ActiveWires(Cleaned(), [Letter(1)]) == [Letter(1)]
  {
    assert [Letter(1)][1..] == [];
    assert ValidWire(Letter(1), ConversationOf(2, 1));
    assert forall e :: e in [Letter(1)] ==> e == Letter(1);
  }

  lemma StoreStep()
    ensures Relay.Apply(Cleaned(), Relay.Store(2, 20, [Letter(1)], 7, LIMITS, 0)) == Renewed()
  {
    var t := Cleaned();
    BatchPasses();
    var tx := t.(logical := t.logical[101 := NewLogical(2, 20, [Letter(1)], 7)]);
    ActiveWiresFrame(t, tx, [Letter(1)]);
    assert t.rows[1..] == [] && [Letter(1)][1..] == [];
    assert Lookup(t.rows, 1) == None;
    var row := NewRow(tx, 2, 20, Letter(1), 7);
    assert InsertRow(tx, row).rows == Renewed().rows && InsertRow(tx, row).logical == Renewed().logical;
    assert InsertRow(tx, row).usage == Renewed().usage;
    assert InsertOne(tx, 2, 20, Letter(1), 7) == Some((Renewed(), 3));
    OneInserted(tx, Letter(1));
    assert Additional(tx.rows, [Letter(1)]) == Some(1);
    TotalOf(t.usage);
    assert PeerReached(2, 1, [Letter(1)]);
  }

  lemma OneInserted(tx: Tables, e: Wire)
    requires InsertOne(tx, 2, 20, e, 7).Some?
    ensures var (s, cursor) := InsertOne(tx, 2, 20, e, 7).value;
            InsertAll(tx, 2, 20, [e], 7) == Some((s, [(e.recipientDevice, cursor)]))
  {
    var (s, cursor) := InsertOne(tx, 2, 20, e, 7).value;
    assert [e][1..] == [] && InsertAll(s, 2, 20, [e][1..], 7) == Some((s, []));
    assert [(e.recipientDevice, cursor)] + [] == [(e.recipientDevice, cursor)];
  }

  lemma TotalOf(usage: map<AccountId, int>)
    requires usage == map[2 := 1]
    ensures SumMap(usage) == 1
  {
    SumUpdate(map[], 2, 1);
  }

  // ----- the steps of the run -----

  lemma FirstReply()
    ensures Sync(Waiting().tables, 1, 10, 0, 0, SYNC_LIMIT) == BOTH
  {
    var rows := Waiting().tables.rows;
    assert rows[1..] == [Held(2)] && [Held(2)][1..] == [];
    assert Queue(rows, 10, 0) == [Held(1), Held(2)];
  }

  lemma SecondReply()
    ensures Sync(Renewed(), 1, 10, 2, 0, SYNC_LIMIT) == ONE
  {
    var rows := Renewed().rows;
    assert rows[1..] == [AGAIN] && [AGAIN][1..] == [];
    assert Queue(rows, 10, 2) == [AGAIN];
  }

  /** One row whose verdict is to take it. */
  lemma TakesOne(t: Local, row: Row, n: nat)
    requires row.cursor > t.cursor
    ensures var h := HandleRow(t, row, Taken(n));
            h.ok && h.done == [row] && h.acks == [row.wire.envelopeId] && h.local.cursor == row.cursor
            && h.local.statusCursor == t.statusCursor && h.effects == [Inbound(100 + n, Text(n))]
  {
    ReadAllFrame(t, [], 2);
  }

  lemma HandlesBoth(t: Local)
    requires t.cursor == 0 && t.statusCursor == 0
    ensures var h := HandleBatch(t, BOTH, [Taken(1), Taken(2)]);
            h.done == BOTH.rows && h.acks == [1, 2] && h.local.cursor == 2 && h.local.statusCursor == 0
  {
    var rows, verdicts := BOTH.rows, [Taken(1), Taken(2)];
    TakesOne(t, Held(1), 1);
    var one := HandleRow(t, Held(1), Taken(1));
    TakesOne(one.local, Held(2), 2);
    HandlesLast(one.local, Held(2), 2);
    assert rows[1..] == [Held(2)] && verdicts[1..] == [Taken(2)];
    assert HandleRows(t, rows, verdicts) == Prepend(one, HandleRows(one.local, [Held(2)], [Taken(2)]));
    assert ApplyStatuses(t, []) == t;
  }

  lemma HandlesLast(t: Local, row: Row, n: nat)
    requires row.cursor > t.cursor
    ensures var h := HandleRows(t, [row], [Taken(n)]);
            h.ok && h.done == [row] && h.acks == [row.wire.envelopeId] && h.local.cursor == row.cursor
            && h.local.statusCursor == t.statusCursor
  {
    TakesOne(t, row, n);
    var one := HandleRow(t, row, Taken(n));
    assert [row][1..] == [] && [Taken(n)][1..] == [];
    assert HandleRows(t, [row], [Taken(n)]) == Prepend(one, HandleRows(one.local, [], []));
  }

  lemma HandlesAgain(t: Local)
    requires t.cursor == 2
    ensures HandleBatch(t, ONE, [Taken(1)]).done == [AGAIN]
  {
    HandlesLast(t, AGAIN, 1);
    assert ApplyStatuses(t, []) == t;
  }

  lemma RunThree(me: Me, w: World, a: Event, b: Event, c: Event)
    ensures Run(me, w, [a, b, c]) == Step(me, Step(me, Step(me, w, a), b), c)
  {
    assert [a, b, c][1..] == [b, c] && [b, c][1..] == [c] && [c][1..] == [];
    var w1 := Step(me, w, a);
    var w2 := Step(me, w1, b);
    assert Run(me, w2, [c]) == Run(me, Step(me, w2, c), []);
    assert Run(me, w1, [b, c]) == Run(me, w2, [c]);
  }

  lemma {:induction false} RunConcat(me: Me, w: World, first: seq<Event>, rest: seq<Event>)
    ensures Run(me, w, first + rest) == Run(me, Run(me, w, first), rest)
    decreases |first|
  {
    if first == [] {
      assert first + rest == rest;
    } else {
      assert (first + rest)[1..] == first[1..] + rest;
      RunConcat(me, Step(me, w, first[0]), first[1..], rest);
    }
  }

  /** The device asked from where it is, and the relay's answer is on its way. */
  function Answered(w: World): World {
    var batch := Sync(w.tables, 1, 10, w.local.cursor, w.local.statusCursor, SYNC_LIMIT);
    w.(net := w.net + {Request(w.local.cursor, w.local.statusCursor)} + {Reply(w.local.cursor, batch)})
  }

  lemma AskAndAnswer(w: World)
    ensures Step(BOB, Step(BOB, w, RequestSync), ServeSync(w.local.cursor, w.local.statusCursor)) == Answered(w)
  {
  }

  /** A reply that is handled at once. */
  lemma HandleAnswer(w: World, verdicts: seq<Verdict>)
    requires |verdicts| == |Sync(w.tables, 1, 10, w.local.cursor, w.local.statusCursor, SYNC_LIMIT).rows|
    requires forall v :: v in verdicts ==> v.Accept? && v.effect.Inbound?
    ensures var batch := Sync(w.tables, 1, 10, w.local.cursor, w.local.statusCursor, SYNC_LIMIT);
            Step(BOB, Answered(w), HandleReply(w.local.cursor, batch, verdicts)) == Handle(Answered(w), batch, verdicts)
  {
    var batch := Sync(w.tables, 1, 10, w.local.cursor, w.local.statusCursor, SYNC_LIMIT);
    HandleNow(Answered(w), w.local.cursor, batch, verdicts);
  }

  lemma HandleNow(w: World, after: nat, batch: Batch, verdicts: seq<Verdict>)
    requires Reply(after, batch) in w.net && |verdicts| == |batch.rows|
    requires forall v :: v in verdicts ==> v.Accept? && v.effect.Inbound?
    ensures Step(BOB, w, HandleReply(after, batch, verdicts)) == Handle(w, batch, verdicts)
  {
    assert AllPlausible(BOB, w.composed, verdicts);
  }

  lemma PullSteps()
    ensures var w := Run(BOB, Waiting(), Pulled());
            && w.tables == Waiting().tables && w.local.cursor == 2 && w.local.statusCursor == 0
            && w.committed == [Held(1), Held(2)] && AckOf(1) in w.net
  {
    var w, verdicts := Waiting(), [Taken(1), Taken(2)];
    FirstReply();
    AskAndAnswer(w);
    HandleAnswer(w, verdicts);
    HandlesBoth(w.local);
    RunThree(BOB, w, RequestSync, ServeSync(0, 0), HandleReply(0, BOTH, verdicts));
  }

  lemma RelaySteps(w: World)
    requires w.tables == Waiting().tables && AckOf(1) in w.net
    ensures Run(BOB, w, Renewing()) == w.(tables := Renewed())
  {
    AckStep();
    CleanStep();
    StoreStep();
    var ack, clean, store := Renewing()[0], Renewing()[1], Renewing()[2];
    ServesAck(w);
    ServesOthers(w.(tables := AckedFirst()), clean.op);
    ServesOthers(w.(tables := Cleaned()), store.op);
    RunThree(BOB, w, ack, clean, store);
  }

  lemma ServesAck(w: World)
    requires AckOf(1) in w.net
    ensures Step(BOB, w, ServeAck(1, 5)) == w.(tables := Relay.Apply(w.tables, Relay.Acknowledge(10, 1, 5)))
  {
  }

  lemma ServesOthers(w: World, op: Relay.RelayOp)
    requires !Mine(BOB, op)
    ensures Step(BOB, w, Elsewhere(op)) == w.(tables := Relay.Apply(w.tables, op))
  {
  }

  lemma PullAgain(w: World)
    requires w.tables == Renewed() && w.local.cursor == 2 && w.local.statusCursor == 0
    ensures Run(BOB, w, PulledAgain()).committed == w.committed + [AGAIN]
  {
    var verdicts := [Taken(1)];
    SecondReply();
    AskAndAnswer(w);
    HandleAnswer(w, verdicts);
    HandlesAgain(w.local);
    RunThree(BOB, w, RequestSync, ServeSync(2, 0), HandleReply(2, ONE, verdicts));
  }

  /**
   A device that was just set up commits the same envelope twice in this run: it was delivered,
   cleaned up, and stored again under a cursor above the device's.
   */
  lemma CommittedTwice()
    ensures Start(BOB, Waiting())
    ensures Run(BOB, Waiting(), Pulled() + (Renewing() + PulledAgain())).committed == [Held(1), Held(2), AGAIN]
    ensures AGAIN.wire == Held(1).wire
  {
    WaitingIsStart();
    var pulled := Run(BOB, Waiting(), Pulled());
    PullSteps();
    RelaySteps(pulled);
    PullAgain(Run(BOB, pulled, Renewing()));
    RunConcat(BOB, Waiting(), Pulled(), Renewing() + PulledAgain());
    RunConcat(BOB, pulled, Renewing(), PulledAgain());
  }
}
