/** Sends that wait after a timeout, or stay blocked after a refusal, over whole runs of the client. */
module ClientWaits {
  import opened Ids
  import opened RelayTables
  import opened LocalTables
  import opened ClientSync
  import opened ClientFlight
  import opened ClientRun
  import Integrity = LocalIntegrity

  // Why a message is not sent: it was refused for good, or it waits until a certain time.
  datatype Hold = Blocked | Until(at: int)

  predicate Holds(f: Flight, l: LogicalId, h: Hold) {
    match h
    case Blocked => l in f.blocked
    case Until(at) => l in f.retryAfter && f.retryAfter[l] == at && l !in f.blocked
  }

  /** Not sent, held back, and not to be announced as a deletion either. */
  ghost predicate Held(c: Client, l: LogicalId, h: Hold) {
    && !InFlight(c.flight, l) && Holds(c.flight, l, h)
    && (PendingSync(c.local, l) ==> l in c.local.outbox)
  }

  /** An event that composes something new under this id. */
  predicate Reuses(e: Event, l: LogicalId) {
    match e
    case ComposeMessage(id, _, _, _, _) => id == l
    case ComposeControl(id, _, _, _) => id == l
    case DeleteHere(_, _, _, syncId, _) => syncId == l
    case _ => false
  }

  /** No retry by the user, no restart, no acceptance of the message, and no pass once its time has come. */
  predicate Spares(e: Event, l: LogicalId, h: Hold) {
    && !e.Retry? && !e.Restart? && !Reuses(e, l)
    && (e.Receives? ==> e.body != AcceptedBody(l))
    && (e.ResendAll? && h.Until? ==> e.now < h.at)
  }

  // ----- the requests -----

  lemma DispatchHolds(f: Flight, call: Call, op: Request, now: int, l: LogicalId, h: Hold)
    requires !InFlight(f, l) && Holds(f, l, h) && op != Outbox(l)
    ensures !InFlight(Dispatch(f, call, op, now), l) && Holds(Dispatch(f, call, op, now), l, h)
  {
    var g := Dispatch(f, call, op, now);
    assert forall i :: i in g.requests && g.requests[i] == Outbox(l) ==> i in f.requests && f.requests[i] == Outbox(l);
  }

  lemma {:induction false} ResendItemsHolds(f: Flight, items: seq<Item>, now: int, l: LogicalId, h: Hold)
    requires !InFlight(f, l) && Holds(f, l, h)
    ensures !InFlight(ResendItems(f, items, now), l) && Holds(ResendItems(f, items, now), l, h)
    decreases |items|
  {
    if items == [] {
    } else {
      if items[0].logicalId != l {
        DispatchHolds(f, items[0].call, Outbox(items[0].logicalId), now, l, h);
      }
      ResendItemsHolds(ResendOne(f, items[0], now), items[1..], now, l, h);
    }
  }

  /** Requests disappear, but the reasons for holding a message back stay. */
  lemma ExpireHolds(f: Flight, now: int, l: LogicalId, h: Hold)
    requires !InFlight(f, l) && Holds(f, l, h)
    ensures !InFlight(Expire(f, now), l) && Holds(Expire(f, now), l, h)
  {
    assert l !in SendsOf(f.requests, Overdue(f, now));
  }

  lemma ReceiveHolds(f: Flight, id: nat, body: Body, now: int, l: LogicalId, h: Hold)
    requires !InFlight(f, l) && Holds(f, l, h) && body != AcceptedBody(l)
    ensures !InFlight(Receive(f, id, body, now), l) && Holds(Receive(f, id, body, now), l, h)
  {
    assert PendingOf(f, id) != Some(Outbox(l));
    var g := Receive(f, id, body, now);
    assert forall i :: i in g.requests ==> i in f.requests && g.requests[i] == f.requests[i];
  }

  lemma {:induction false} AnnounceHolds(c: Client, todo: seq<Announcement>, targets: bool, now: int, l: LogicalId, h: Hold)
    requires !InFlight(c.flight, l) && Holds(c.flight, l, h)
    requires l in c.local.outbox || forall a :: a in todo ==> a.syncId != l
    ensures var s := Announce(c, todo, targets, now); !InFlight(s.flight, l) && Holds(s.flight, l, h)
    decreases |todo|
  {
    if todo == [] {
    } else {
      var a := todo[0];
      if a.syncId in c.local.outbox {
        AnnounceHolds(c, todo[1..], targets, now, l, h);
      } else if !targets {
        AnnounceHolds(c.(local := MarkSynced(c.local, a.syncId)), todo[1..], targets, now, l, h);
      } else {
        assert a.syncId != l;
        DispatchHolds(c.flight, a.call, Outbox(a.syncId), now, l, h);
        AnnounceHolds(AnnounceOne(c, a, now), todo[1..], targets, now, l, h);
      }
    }
  }

  lemma FlightHolds(c: Client, e: Event, l: LogicalId, h: Hold)
    requires Held(c, l, h) && Enabled(c, e) && Spares(e, l, h)
    ensures !InFlight(Step(c, e).flight, l) && Holds(Step(c, e).flight, l, h)
  {
    match e
    case StartSync(call, now) => DispatchHolds(c.flight, call, Sync, now, l, h);
    case Query(call, op, now) => DispatchHolds(c.flight, call, op, now, l, h);
    case ComposeMessage(id, _, _, call, now) => DispatchHolds(c.flight, call, Outbox(id), now, l, h);
    case ComposeControl(id, _, call, now) => DispatchHolds(c.flight, call, Outbox(id), now, l, h);
    case AnnounceDeletions(todo, targets, now) => AnnounceHolds(c, todo, targets, now, l, h);
    case ResendAll(items, now) =>
      ResendItemsHolds(c.flight.(retryAfter := StillWaiting(c.flight.retryAfter, now)), items, now, l, h);
    case Tick(now) => ExpireHolds(c.flight, now, l, h);
    case Receives(id, body, now) => ReceiveHolds(c.flight, id, body, now, l, h);
    case _ =>
  }

  // ----- the outbox -----

  /** A pending deletion that is queued stays queued. */
  ghost predicate StaysQueued(t: Local, s: Local, l: LogicalId) {
    PendingSync(s, l) ==> PendingSync(t, l) && (l in t.outbox ==> l in s.outbox)
  }

  lemma {:induction false} AnnounceStaysQueued(c: Client, todo: seq<Announcement>, targets: bool, now: int, l: LogicalId)
    ensures StaysQueued(c.local, Announce(c, todo, targets, now).local, l)
    decreases |todo|
  {
    if todo == [] {
    } else {
      var a := todo[0];
      var settled, next := c.(local := MarkSynced(c.local, a.syncId)), AnnounceOne(c, a, now);
      AnnounceStaysQueued(c, todo[1..], targets, now, l);
      AnnounceStaysQueued(settled, todo[1..], targets, now, l);
      AnnounceStaysQueued(next, todo[1..], targets, now, l);
      SettleStaysQueued(c.local, a.syncId, l);
    }
  }

  lemma SettleStaysQueued(t: Local, syncId: LogicalId, l: LogicalId)
    ensures StaysQueued(t, MarkSynced(t, syncId), l)
  {
    var s := MarkSynced(t, syncId);
    if PendingSync(s, l) {
      var p :| p in s.tombstones && s.tombstones[p].pending && s.tombstones[p].syncId == l;
      assert t.tombstones[p].pending && t.tombstones[p].syncId == l;
    }
  }

  lemma DeleteStaysQueued(
    t: Local, peer: AccountId, username: nat, c: Conversation, syncId: LogicalId, at: int, l: LogicalId)
    requires DeleteEverywhere(t, peer, username, c, syncId, at).Some? && syncId != l
    requires PendingSync(t, l) ==> l !in t.messages
    ensures StaysQueued(t, DeleteEverywhere(t, peer, username, c, syncId, at).value, l)
  {
    var s := DeleteEverywhere(t, peer, username, c, syncId, at).value;
    if PendingSync(s, l) {
      var p :| p in s.tombstones && s.tombstones[p].pending && s.tombstones[p].syncId == l;
      assert p in t.tombstones && t.tombstones[p].pending && t.tombstones[p].syncId == l;
    }
  }

  lemma VerifyStaysQueued(t: Local, account: AccountId, l: LogicalId)
    requires Integrity.UniqueSyncIds(t.tombstones)
    ensures StaysQueued(t, VerifyContact(t, account), l)
  {
    var s := VerifyContact(t, account);
    if PendingSync(s, l) {
      var p :| p in s.tombstones && s.tombstones[p].pending && s.tombstones[p].syncId == l;
      assert p != account && t.tombstones[p].pending && t.tombstones[p].syncId == l;
    }
  }

  lemma BatchStaysQueued(c: Client, batch: Batch, verdicts: seq<Verdict>, l: LogicalId)
    requires Queued(c.flight, c.local) && |verdicts| == |batch.rows|
    requires forall v, id :: v in verdicts && Inserts(v, id) ==> !PendingSync(c.local, id)
    ensures StaysQueued(c.local, HandleBatch(c.local, batch, verdicts).local, l)
  {
    forall p | p in c.local.tombstones && c.local.tombstones[p].pending
      ensures c.local.tombstones[p].syncId !in c.local.messages
    {
      assert PendingSync(c.local, c.local.tombstones[p].syncId);
    }
    forall v | v in verdicts ensures Quiet(c.local, v) {
      if v.Accept? && (v.effect.Inbound? || v.effect.Unverified?) {
        assert Inserts(v, v.effect.id);
      }
    }
    HandleBatchSettled(c.local, batch, verdicts);
  }

  lemma BodyStaysQueued(c: Client, id: nat, body: Body, now: int, l: LogicalId)
    requires Queued(c.flight, c.local) && Enabled(c, Receives(id, body, now)) && body != AcceptedBody(l)
    ensures StaysQueued(c.local, LocalAfter(c.local, body), l)
  {
    match body
    case BatchBody(batch, verdicts) => BatchStaysQueued(c, batch, verdicts, l);
    case AcceptedBody(k) => SettleStaysQueued(c.local, k, l);
    case _ =>
  }

  lemma LocalStaysQueued(c: Client, e: Event, l: LogicalId, h: Hold)
    requires Ok(c) && Integrity.UniqueSyncIds(c.local.tombstones) && Enabled(c, e) && Spares(e, l, h)
    ensures StaysQueued(c.local, Step(c, e).local, l)
  {
    match e
    case AnnounceDeletions(todo, targets, now) => AnnounceStaysQueued(c, todo, targets, now, l);
    case Receives(id, body, now) => BodyStaysQueued(c, id, body, now, l);
    case DeleteHere(peer, username, conversation, syncId, at) =>
      if Step(c, e) != c {
        DeleteStaysQueued(c.local, peer, username, conversation, syncId, at, l);
      }
    case VerifyPeer(account) => VerifyStaysQueued(c.local, account, l);
    case _ =>
  }

  // ----- runs -----

  lemma {:induction false} RunHolds(c: Client, events: seq<Event>, l: LogicalId, h: Hold)
    requires Ok(c) && Integrity.UniqueSyncIds(c.local.tombstones) && EnabledRun(c, events)
    requires Held(c, l, h) && forall e :: e in events ==> Spares(e, l, h)
    ensures Held(Run(c, events), l, h)
    decreases |events|
  {
    if events == [] {
    } else {
      StepKeepsOk(c, events[0]);
      StepKeepsUnique(c, events[0]);
      FlightHolds(c, events[0], l, h);
      LocalStaysQueued(c, events[0], l, h);
      RunHolds(Step(c, events[0]), events[1..], l, h);
    }
  }

  /**
   A send that timed out is repeated by no pass before its delay has passed, whatever else happens,
   and by the first pass after it, provided the user does not retry and the relay does not accept it.
   */
  lemma TimedOutSendWaits(c: Client, id: nat, now: int, events: seq<Event>, items: seq<Item>, item: Item, later: int)
    requires Ok(c) && Integrity.UniqueSyncIds(c.local.tombstones)
    requires id in Overdue(c.flight, now) && id in c.flight.requests && c.flight.requests[id] == Outbox(item.logicalId)
    requires item.logicalId !in c.flight.blocked
    requires EnabledRun(Step(c, Tick(now)), events)
    requires forall e :: e in events ==> Spares(e, item.logicalId, Until(now + RETRY_DELAY))
    requires var f := Run(Step(c, Tick(now)), events).flight;
             item in items && item.call.sent && FreshCalls(f.requests.Keys, CallsOf(items))
    ensures var f := Run(Step(c, Tick(now)), events).flight;
            && !InFlight(f, item.logicalId)
            && (InFlight(Resend(f, items, later), item.logicalId) <==> later >= now + RETRY_DELAY)
  {
    var l, h := item.logicalId, Until(now + RETRY_DELAY);
    var g := Step(c, Tick(now));
    TimeoutHolds(c, id, now, l);
    StepKeepsOk(c, Tick(now));
    RunHolds(g, events, l, h);
    var f := Run(g, events).flight;
    var passing := f.(retryAfter := StillWaiting(f.retryAfter, later));
    if later < now + RETRY_DELAY {
      ResendItemsHolds(passing, items, later, l, h);
    } else {
      ResendSendsAll(passing, items, later, item);
    }
  }

  lemma TimeoutHolds(c: Client, id: nat, now: int, l: LogicalId)
    requires Ok(c) && id in Overdue(c.flight, now) && id in c.flight.requests && c.flight.requests[id] == Outbox(l)
    requires l !in c.flight.blocked
    ensures Held(Step(c, Tick(now)), l, Until(now + RETRY_DELAY))
  {
    assert l in SendsOf(c.flight.requests, Overdue(c.flight, now));
    assert InFlight(c.flight, l);
  }

  /** A send that was refused for good is repeated by no later pass, unless the user retries or the client restarts. */
  lemma RefusedSendStays(c: Client, id: nat, closed: bool, now: int, events: seq<Event>, l: LogicalId)
    requires Ok(c) && Integrity.UniqueSyncIds(c.local.tombstones)
    requires id != EMPTY_ID && id in c.flight.requests && c.flight.requests[id] == Outbox(l)
    requires EnabledRun(Step(c, Receives(id, ErrorBody(false, closed), now)), events)
    requires forall e :: e in events ==> Spares(e, l, Blocked)
    ensures !InFlight(Run(Step(c, Receives(id, ErrorBody(false, closed), now)), events).flight, l)
  {
    var e := Receives(id, ErrorBody(false, closed), now);
    RefusalHolds(c, id, closed, now, l);
    StepKeepsOk(c, e);
    RunHolds(Step(c, e), events, l, Blocked);
  }

  lemma RefusalHolds(c: Client, id: nat, closed: bool, now: int, l: LogicalId)
    requires Ok(c) && id != EMPTY_ID && id in c.flight.requests && c.flight.requests[id] == Outbox(l)
    ensures Held(Step(c, Receives(id, ErrorBody(false, closed), now)), l, Blocked)
  {
    var g := Step(c, Receives(id, ErrorBody(false, closed), now)).flight;
    assert InFlight(c.flight, l);
    assert forall i :: i in g.requests ==> i != id && c.flight.requests[i] == g.requests[i];
  }
}
