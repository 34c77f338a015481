/** Outbox durability: a composed message waits in the outbox until the relay has stored it. */
module DeliveryOutbox {
  import opened Ids
  import opened RelayTables
  import opened LocalTables
  import opened ClientSync
  import opened Delivery

  /** Still stored here under its conversation, and still queued or already stored by the relay. */
  ghost predicate Safe(t: Local, id: LogicalId, c: Conversation, accepted: set<LogicalId>) {
    id in t.messages && t.messages[id].conversation == c && (id in t.outbox || id in accepted)
  }

  ghost predicate AllSafe(
    t: Local, composed: map<LogicalId, Conversation>, accepted: set<LogicalId>, erased: set<LogicalId>)
  {
    forall id :: id in composed && id !in erased ==> Safe(t, id, composed[id], accepted)
  }

  /** No message composed here shares its id with a deletion event. */
  ghost predicate Apart(t: Local, composed: map<LogicalId, Conversation>) {
    forall p :: p in t.tombstones ==> t.tombstones[p].syncId !in composed
  }

  ghost predicate AcceptedOk(net: set<Packet>, accepted: set<LogicalId>) {
    forall id :: Accepted(id) in net ==> id in accepted
  }

  ghost predicate Durable(w: World) {
    && AllSafe(w.local, w.composed, w.accepted, w.erased)
    && Apart(w.local, w.composed) && AcceptedOk(w.net, w.accepted)
  }

  // ----- the store's transactions -----

  /** Messages keep their conversation and outbox entries stay, at least for the composed messages. */
  ghost predicate Retains(t: Local, s: Local) {
    && (forall id :: id in t.messages ==> id in s.messages && s.messages[id].conversation == t.messages[id].conversation)
    && t.outbox.Keys <= s.outbox.Keys && s.tombstones == t.tombstones
  }

  lemma CommitKeeps(
    t: Local, e: Effect, cursor: nat,
    composed: map<LogicalId, Conversation>, accepted: set<LogicalId>, erased: set<LogicalId>)
    requires AllSafe(t, composed, accepted, erased) && Apart(t, composed)
    requires (e.Deletion? ==> e.syncId !in composed) && Commit(t, e, cursor).Some?
    ensures AllSafe(Commit(t, e, cursor).value, composed, accepted, erased + Gone(composed, [e]))
    ensures Apart(Commit(t, e, cursor).value, composed)
  {
    if e.Deletion? {
      assert e in [e];
    }
  }

  lemma HandleRowKeeps(
    me: Me, t: Local, row: Row, v: Verdict,
    composed: map<LogicalId, Conversation>, accepted: set<LogicalId>, erased: set<LogicalId>)
    requires AllSafe(t, composed, accepted, erased) && Apart(t, composed) && Plausible(me, composed, v)
    ensures var h := HandleRow(t, row, v);
            AllSafe(h.local, composed, accepted, erased + Gone(composed, h.effects)) && Apart(h.local, composed)
  {
    var mid := ReadAll(t, v.readIds, v.peer);
    ReadAllFrame(t, v.readIds, v.peer);
    if v.Accept? && Commit(mid, v.effect, row.cursor).Some? {
      CommitKeeps(mid, v.effect, row.cursor, composed, accepted, erased);
    }
  }

  lemma {:induction false} HandleRowsKeeps(
    me: Me, t: Local, rows: seq<Row>, verdicts: seq<Verdict>,
    composed: map<LogicalId, Conversation>, accepted: set<LogicalId>, erased: set<LogicalId>)
    requires |verdicts| == |rows| && AllPlausible(me, composed, verdicts)
    requires AllSafe(t, composed, accepted, erased) && Apart(t, composed)
    ensures var h := HandleRows(t, rows, verdicts);
            AllSafe(h.local, composed, accepted, erased + Gone(composed, h.effects)) && Apart(h.local, composed)
    decreases |rows|
  {
    if rows == [] {
    } else if rows[0].cursor <= t.cursor {
      HandleRowsKeeps(me, t, rows[1..], verdicts[1..], composed, accepted, erased);
    } else {
      var one := HandleRow(t, rows[0], verdicts[0]);
      HandleRowKeeps(me, t, rows[0], verdicts[0], composed, accepted, erased);
      if one.ok {
        var rest := HandleRows(one.local, rows[1..], verdicts[1..]);
        HandleRowsKeeps(me, one.local, rows[1..], verdicts[1..], composed, accepted, erased + Gone(composed, one.effects));
      }
    }
  }

  lemma HandleKeeps(me: Me, w: World, batch: Batch, verdicts: seq<Verdict>)
    requires Durable(w) && |verdicts| == |batch.rows| && AllPlausible(me, w.composed, verdicts)
    ensures Durable(Handle(w, batch, verdicts))
  {
    var mid := ApplyStatuses(w.local, batch.statuses);
    ApplyStatusesFrame(w.local, batch.statuses);
    HandleRowsKeeps(me, mid, batch.rows, verdicts, w.composed, w.accepted, w.erased);
    var h, s := HandleRows(mid, batch.rows, verdicts), Handle(w, batch, verdicts);
    assert Retains(h.local, s.local);
  }

  lemma BatchKeepsDurable(me: Me, w: World, e: Event)
    requires Durable(w) && (e.HandleReply? || e.HandlePush?)
    ensures Durable(Step(me, w, e))
  {
    if Step(me, w, e) != w {
      match e
      case HandleReply(_, batch, verdicts) => HandleKeeps(me, w, batch, verdicts);
      case HandlePush(row, verdict) => HandleKeeps(me, w, PushOf(row), [verdict]);
    }
  }

  /** Steps that touch neither messages, outbox nor tombstones, or only grow them. */
  predicate Harmless(e: Event) {
    e.Elsewhere? || e.RequestSync? || e.ServeSync? || e.ServePush? || e.ServeAck? || e.ComposeControl? || e.Resend?
    || e.NoteDelivered?
  }

  lemma HarmlessSteps(me: Me, w: World, e: Event)
    requires Harmless(e)
    ensures var s := Step(me, w, e);
            && Retains(w.local, s.local) && s.composed == w.composed && s.accepted == w.accepted && s.erased == w.erased
            && forall id :: Accepted(id) in s.net ==> Accepted(id) in w.net
  {
  }

  lemma StepKeepsDurable(me: Me, w: World, e: Event)
    requires Durable(w)
    ensures Durable(Step(me, w, e))
  {
    if Harmless(e) {
      HarmlessSteps(me, w, e);
    } else if e.HandleReply? || e.HandlePush? {
      BatchKeepsDurable(me, w, e);
    }
  }

  /**
   Over any run, with crashes, repeats and losses: every message composed on this device is in its
   outbox or was stored by the relay, unless its conversation was deleted here after it was composed.
   */
  lemma {:induction false} RunKeepsDurable(me: Me, w: World, events: seq<Event>)
    requires Durable(w)
    ensures Durable(Run(me, w, events))
    decreases |events|
  {
    if events == [] {
    } else {
      StepKeepsDurable(me, w, events[0]);
      RunKeepsDurable(me, Step(me, w, events[0]), events[1..]);
    }
  }

  lemma OutboxIsDurable(me: Me, w: World, events: seq<Event>, id: LogicalId)
    requires Start(me, w)
    requires id in Run(me, w, events).composed && id !in Run(me, w, events).erased
    ensures var s := Run(me, w, events);
            id in s.local.outbox || id in s.accepted
  {
    RunKeepsDurable(me, w, events);
    var s := Run(me, w, events);
    assert Safe(s.local, id, s.composed[id], s.accepted);
  }
}
