/** The client's `App`, as far as it books requests in flight, sends what is queued and handles batches. */
module ClientApp {
  import opened Ids
  import opened RelayTables
  import opened LocalTables
  import opened ClientSync
  import opened ClientFlight
  import opened ClientStore
  import History = MessageHistory

  /** The books after the requests `done` have expired. */
  function Expiring(f: Flight, done: set<nat>, now: int): Flight {
    f.(requests := f.requests - done,
       deadlines := f.deadlines - done,
       syncing := f.syncing && !HasSync(f.requests, done),
       retryAfter := Delayed(f.retryAfter, SendsOf(f.requests, done), now + RETRY_DELAY))
  }

  function ExpireOne(f: Flight, id: nat, now: int): Flight {
    var pending := if id in f.requests then Some(f.requests[id]) else None;
    f.(requests := f.requests - {id},
       deadlines := f.deadlines - {id},
       syncing := f.syncing && pending != Some(Sync),
       retryAfter := if pending.Some? && pending.value.Outbox?
                     then f.retryAfter[pending.value.logicalId := now + RETRY_DELAY] else f.retryAfter)
  }

  lemma ExpiringNext(f: Flight, all: set<nat>, rest: set<nat>, id: nat, now: int)
    requires id in rest && rest <= all
    ensures Expiring(f, all - (rest - {id}), now) == ExpireOne(Expiring(f, all - rest, now), id, now)
  {
    assert all - (rest - {id}) == all - rest + {id};
  }

  lemma PrependAssoc(a: Handled, b: Handled, c: Handled)
    ensures Prepend(a, Prepend(b, c)) == Prepend(Prepend(a, b), c)
  {
    assert a.done + (b.done + c.done) == a.done + b.done + c.done;
    assert a.effects + (b.effects + c.effects) == a.effects + b.effects + c.effects;
    assert a.acks + (b.acks + c.acks) == a.acks + b.acks + c.acks;
  }

  /** One more request than before, with its deadline. */
  ghost predicate BookedUnder(f: Flight, g: Flight, op: Request, deadline: int) {
    exists id: nat :: id !in f.requests && g.requests == f.requests[id := op] && g.deadlines == f.deadlines[id := deadline]
  }

  /** A refused send waits for its delay or, refused for good, for the user. */
  predicate Postponed(f: Flight, l: LogicalId, retryable: bool, until: int) {
    if retryable then l in f.retryAfter && f.retryAfter[l] == until
    else l in f.blocked && l !in f.retryAfter
  }

  /** A new random id, and neither a second sync nor a second send of the same message. */
  ghost predicate MayDispatch(f: Flight, call: Call, op: Request) {
    FreshCall(f, call) && op != Sync && (op.Outbox? ==> !InFlight(f, op.logicalId))
  }

  lemma DispatchFacts(f: Flight, call: Call, op: Request, now: int)
    ensures call.sent && FreshCall(f, call) ==> BookedUnder(f, Dispatch(f, call, op, now), op, now + TIMEOUT)
    ensures Booked(f) && MayDispatch(f, call, op) ==> Booked(Dispatch(f, call, op, now))
  {
    if Booked(f) && MayDispatch(f, call, op) {
      DispatchKeepsBooked(f, call, op, now);
    }
    assert FreshCall(f, call) ==> RequestId(f, call) !in f.requests;
  }

  /** An error that answers a send. */
  predicate RefusesSend(f: Flight, id: nat, body: Body) {
    body.ErrorBody? && id != EMPTY_ID && id in f.requests && f.requests[id].Outbox?
  }

  lemma AnswerFacts(f: Flight, id: nat, body: Body, now: int)
    ensures Booked(f) ==> (Booked(Receive(f, id, body, now)) <==> !StrayAnswer(f, id, body))
    ensures RefusesSend(f, id, body) ==>
              Postponed(Receive(f, id, body, now), f.requests[id].logicalId, body.retryable, now + RETRY_DELAY)
  {
    if Booked(f) {
      AnswerKeepsFlagExactly(f, id, body, now);
    }
  }

  lemma CompletionFacts(t: Local, l: LogicalId)
    ensures var s := CompleteOutbox(t, l);
            && l !in s.outbox
            && (l in s.messages ==> Rank(s.messages[l].status) >= Rank(Status.Sent))
            && forall p :: p in s.tombstones && s.tombstones[p].syncId == l ==> !s.tombstones[p].pending
  {
  }

  class App {
    const store: LocalStore
    var requests: map<nat, Request>
    var deadlines: map<nat, int>
    var syncInFlight: bool
    var connected: bool
    var blockedOutbox: set<LogicalId>
    var outboxRetryAfter: map<LogicalId, int>

    function Books(): Flight
      reads this
    {
      Flight(requests, deadlines, syncInFlight, connected, blockedOutbox, outboxRetryAfter)
    }

    constructor (s: LocalStore)
      ensures store == s && Books() == IDLE
    {
      store := s;
      requests, deadlines, syncInFlight, connected := map[], map[], false, false;
      blockedOutbox, outboxRetryAfter := {}, map[];
    }

    method DispatchBackground(call: Call, op: Request, now: int) returns (ok: bool)
      modifies this
      ensures ok == call.sent && Books() == Dispatch(old(Books()), call, op, now)
      ensures !ok ==> Books() == old(Books())
      ensures ok && FreshCall(old(Books()), call) ==> BookedUnder(old(Books()), Books(), op, now + TIMEOUT)
      ensures Booked(old(Books())) && MayDispatch(old(Books()), call, op) ==> Booked(Books())
    {
      DispatchFacts(Books(), call, op, now);
      var id := call.wanted;
      if id == EMPTY_ID || id in requests {
        id := call.spare;
      }
      if !call.sent {
        return false;
      }
      requests := requests[id := op];
      deadlines := deadlines[id := now + TIMEOUT];
      ok := true;
    }

    method RequestSync(call: Call, now: int)
      modifies this
      ensures Books() == ClientFlight.RequestSync(old(Books()), call, now)
    {
      if !connected || syncInFlight {
        return;
      }
      var ok := DispatchBackground(call, Sync, now);
      if ok {
        syncInFlight := true;
      }
    }

    method ForgetExpired(id: nat, now: int)
      modifies this
      ensures Books() == ExpireOne(old(Books()), id, now)
    {
      deadlines := deadlines - {id};
      if id in requests {
        match requests[id] {
          case Sync => syncInFlight := false;
          case Outbox(l) => outboxRetryAfter := outboxRetryAfter[l := now + RETRY_DELAY];
          case _ =>
        }
      }
      requests := requests - {id};
    }

    /** The expired requests in any order; each is removed from both maps. */
    method ExpireBackgroundRequests(now: int)
      modifies this
      ensures Books() == Expire(old(Books()), now)
    {
      var rest := Overdue(Books(), now);
      ghost var f, all := Books(), rest;
      while rest != {}
        invariant rest <= all && Books() == Expiring(f, all - rest, now)
        decreases |rest|
      {
        var id :| id in rest;
        ForgetExpired(id, now);
        ExpiringNext(f, all, rest, id, now);
        rest := rest - {id};
      }
      assert all - rest == all;
    }

    /** The request that a frame answers is no longer in flight. */
    method TakePending(id: nat) returns (pending: Option<Request>)
      modifies this
      ensures Books() == Answered(old(Books()), id) && pending == PendingOf(old(Books()), id)
    {
      pending := None;
      if id != EMPTY_ID {
        pending := if id in requests then Some(requests[id]) else None;
        deadlines := deadlines - {id};
        requests := requests - {id};
      }
    }

    method HandleError(pending: Option<Request>, retryable: bool, closed: bool, now: int)
      modifies this
      ensures Books() == AfterError(old(Books()), pending, retryable, closed, now)
    {
      if pending == Some(Sync) {
        syncInFlight := false;
      }
      if pending.Some? && pending.value.Outbox? {
        var l := pending.value.logicalId;
        if retryable {
          outboxRetryAfter := outboxRetryAfter[l := now + RETRY_DELAY];
        } else {
          outboxRetryAfter := outboxRetryAfter - {l};
          blockedOutbox := blockedOutbox + {l};
        }
      }
      if closed {
        connected, syncInFlight := false, false;
        requests, deadlines := map[], map[];
      }
    }

    method HandleAnswer(id: nat, body: Body, now: int)
      requires !body.BatchBody? && !body.AcceptedBody?
      modifies this
      ensures Books() == Receive(old(Books()), id, body, now)
      ensures Booked(old(Books())) ==> (Booked(Books()) <==> !StrayAnswer(old(Books()), id, body))
      ensures RefusesSend(old(Books()), id, body) ==>
                Postponed(Books(), old(Books()).requests[id].logicalId, body.retryable, now + RETRY_DELAY)
    {
      AnswerFacts(Books(), id, body, now);
      var pending := TakePending(id);
      match body {
        case ErrorBody(retryable, closed) =>
          HandleError(pending, retryable, closed, now);
        case _ =>
      }
    }

    method HandleAccepted(id: nat, l: LogicalId, now: int)
      modifies this, store
      ensures Books() == Receive(old(Books()), id, AcceptedBody(l), now)
      ensures store.tables == LocalTables.CompleteOutbox(old(store.tables), l)
      ensures Booked(old(Books())) ==> (Booked(Books()) <==> !StrayAnswer(old(Books()), id, AcceptedBody(l)))
      ensures old(store.Valid()) ==> store.Valid()
      ensures l !in blockedOutbox && l !in outboxRetryAfter && l !in store.tables.outbox
      ensures l in store.tables.messages ==> Rank(store.tables.messages[l].status) >= Rank(Status.Sent)
      ensures forall p :: p in store.tables.tombstones && store.tables.tombstones[p].syncId == l ==>
                !store.tables.tombstones[p].pending
    {
      AnswerFacts(Books(), id, AcceptedBody(l), now);
      CompletionFacts(store.tables, l);
      var _ := TakePending(id);
      blockedOutbox := blockedOutbox - {l};
      outboxRetryAfter := outboxRetryAfter - {l};
      store.RemoveOutbox(l);
      store.MarkSynced(l);
      store.UpdateStatus(l, Status.Sent);
    }

    method HandleBatchFrame(id: nat, batch: Batch, verdicts: seq<Verdict>, now: int)
      returns (done: seq<Row>, acks: seq<EnvelopeId>, ok: bool)
      requires |verdicts| == |batch.rows|
      modifies this, store
      ensures Books() == Receive(old(Books()), id, BatchBody(batch, verdicts), now)
      ensures var h := HandleBatch(old(store.tables), batch, verdicts);
              store.tables == h.local && done == h.done && acks == h.acks && ok == h.ok
    {
      var pending := TakePending(id);
      if pending == Some(Sync) || !Syncing(Books()) {
        syncInFlight := false;
      }
      done, acks, ok := HandleSyncBatch(batch, verdicts);
    }

    /** Skip, commit, acknowledge: afterwards the messages are those that the batch's history leaves. */
    method HandleSyncBatch(batch: Batch, verdicts: seq<Verdict>)
      returns (done: seq<Row>, acks: seq<EnvelopeId>, ok: bool)
      requires |verdicts| == |batch.rows|
      modifies store
      ensures var h := HandleBatch(old(store.tables), batch, verdicts);
              store.tables == h.local && done == h.done && acks == h.acks && ok == h.ok
      ensures var before := old(store.tables);
              var log := History.BatchLog(before, batch, verdicts);
              History.TakenRows(log) == done && History.Agrees(store.tables.messages, History.Filed(before.messages, log))
    {
      History.BatchLogRows(store.tables, batch, verdicts);
      History.AgreesWithItself(store.tables.messages);
      History.BatchAgrees(store.tables, store.tables.messages, batch, verdicts);
      done, acks, ok := HandleInOrder(batch, verdicts);
    }

    /** Row by row, with the cursor kept in a local variable. */
    method HandleInOrder(batch: Batch, verdicts: seq<Verdict>)
      returns (done: seq<Row>, acks: seq<EnvelopeId>, ok: bool)
      requires |verdicts| == |batch.rows|
      modifies store
      ensures var h := HandleBatch(old(store.tables), batch, verdicts);
              store.tables == h.local && done == h.done && acks == h.acks && ok == h.ok
    {
      var cursor, statusCursor := store.tables.cursor, store.tables.statusCursor;
      ghost var start := store.tables;
      statusCursor := ApplyUpdates(batch.statuses, statusCursor);
      ApplyStatusesFrame(start, batch.statuses);
      ghost var read := store.tables;
      ghost var effects: seq<Effect> := [];
      done, acks := [], [];
      var i := 0;
      while i < |batch.rows|
        invariant 0 <= i <= |batch.rows| && cursor == store.tables.cursor
        invariant HandleRows(read, batch.rows, verdicts)
               == Prepend(Handled(store.tables, done, effects, acks, true),
                          HandleRows(store.tables, batch.rows[i..], verdicts[i..]))
        invariant store.tables.statusCursor == start.statusCursor
      {
        var row, verdict := batch.rows[i], verdicts[i];
        ghost var before := store.tables;
        ghost var soFar := Handled(before, done, effects, acks, true);
        assert batch.rows[i..][0] == row && verdicts[i..][0] == verdict;
        assert batch.rows[i..][1..] == batch.rows[i + 1..] && verdicts[i..][1..] == verdicts[i + 1..];
        if row.cursor > cursor {
          ghost var one := HandleRow(before, row, verdict);
          HandleRowKeepsStatusCursor(before, row, verdict);
          HandleRowEffect(before, row, verdict);
          var committed, acked := HandleEnvelope(row, verdict);
          if committed {
            cursor := row.cursor;
            done := done + [row];
            effects := effects + [verdict.effect];
          }
          if acked {
            acks := acks + [row.wire.envelopeId];
          }
          if !committed || !acked {
            ok := false;
            return;
          }
          PrependAssoc(soFar, one, HandleRows(store.tables, batch.rows[i + 1..], verdicts[i + 1..]));
        }
        i := i + 1;
      }
      store.SetCursors(cursor, if statusCursor < batch.nextStatus then batch.nextStatus else statusCursor);
      ok := true;
    }

    /** The delivery updates of a batch; returns the last of their cursors. */
    method ApplyUpdates(statuses: seq<Update>, from: nat) returns (statusCursor: nat)
      modifies store
      ensures store.tables == ApplyStatuses(old(store.tables), statuses)
      ensures statusCursor == if statuses == [] then from else statuses[|statuses| - 1].cursor
    {
      statusCursor := from;
      var i := 0;
      while i < |statuses|
        invariant 0 <= i <= |statuses|
        invariant ApplyStatuses(old(store.tables), statuses) == ApplyStatuses(store.tables, statuses[i..])
        invariant statusCursor == if i == 0 then from else statuses[i - 1].cursor
      {
        assert statuses[i..][0] == statuses[i] && statuses[i..][1..] == statuses[i + 1..];
        store.UpdateStatus(statuses[i].logicalId, Status.Delivered);
        statusCursor := statuses[i].cursor;
        i := i + 1;
      }
    }

    /** Receipts first, then the commit, then the ack. */
    method HandleEnvelope(row: Row, verdict: Verdict) returns (committed: bool, acked: bool)
      modifies store
      ensures var h := HandleRow(old(store.tables), row, verdict);
              && store.tables == h.local
              && committed == (h.done != [])
              && acked == (h.acks != [])
              && (committed ==> verdict.Accept? && h.effects == [verdict.effect])
    {
      var i := 0;
      while i < |verdict.readIds|
        invariant 0 <= i <= |verdict.readIds|
        invariant ReadAll(old(store.tables), verdict.readIds, verdict.peer)
               == ReadAll(store.tables, verdict.readIds[i..], verdict.peer)
      {
        assert verdict.readIds[i..][0] == verdict.readIds[i] && verdict.readIds[i..][1..] == verdict.readIds[i + 1..];
        store.UpdateOutboundStatus(verdict.readIds[i], verdict.peer, Status.Read);
        i := i + 1;
      }
      committed, acked := false, false;
      match verdict {
        case Stop(_, _) =>
        case Accept(_, _, effect, sent) =>
          committed := store.Commit(effect, row.cursor);
          acked := committed && sent;
      }
    }

    /** One pass over the outbox. */
    method ResendOutbox(items: seq<Item>, now: int)
      modifies this
      ensures Books() == Resend(old(Books()), items, now)
    {
      outboxRetryAfter := StillWaiting(outboxRetryAfter, now);
      ghost var f := Books();
      var i := 0;
      while i < |items|
        invariant 0 <= i <= |items| && ResendItems(f, items, now) == ResendItems(Books(), items[i..], now)
      {
        var item := items[i];
        assert items[i..][0] == item && items[i..][1..] == items[i + 1..];
        if item.logicalId !in blockedOutbox && item.logicalId !in outboxRetryAfter && !InFlight(Books(), item.logicalId) {
          var _ := DispatchBackground(item.call, Outbox(item.logicalId), now);
        }
        i := i + 1;
      }
    }

    method SyncPendingDeletions(todo: seq<Announcement>, targets: bool, now: int)
      modifies this, store
      ensures Client(Books(), store.tables) == Announce(Client(old(Books()), old(store.tables)), todo, targets, now)
    {
      ghost var c := Client(Books(), store.tables);
      var i := 0;
      while i < |todo|
        invariant 0 <= i <= |todo|
        invariant Announce(c, todo, targets, now) == Announce(Client(Books(), store.tables), todo[i..], targets, now)
      {
        var a := todo[i];
        assert todo[i..][0] == a && todo[i..][1..] == todo[i + 1..];
        if a.syncId in store.tables.outbox {
        } else if !targets {
          store.MarkSynced(a.syncId);
        } else {
          store.CommitControlOutgoing(a.syncId, a.frame);
          var ok := DispatchBackground(a.call, Outbox(a.syncId), now);
          if !ok {
            return;
          }
        }
        i := i + 1;
      }
    }
  }
}
