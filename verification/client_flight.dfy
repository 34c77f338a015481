/** The client's requests in flight. */
module ClientFlight {
  // Their deadlines, the one sync, and the sends of queued messages, together with the local store
  // that decides what is sent again.

  import opened Ids
  import opened RelayTables
  import opened LocalTables
  import opened ClientSync

  datatype Request = Sync | Outbox(logicalId: LogicalId) | ReconcilePairing | DeviceList | DeviceRevoke

  datatype Flight = Flight(
    requests: map<nat, Request>,
    deadlines: map<nat, int>,
    syncing: bool,
    connected: bool,
    blocked: set<LogicalId>,
    retryAfter: map<LogicalId, int>)

  const TIMEOUT := 20
  const RETRY_DELAY := 30

  const IDLE := Flight(map[], map[], false, false, {}, map[])

  // One dispatch: the frame's own id, the random id that replaces it when it is taken, and
  // whether the connection's queue took the frame.
  datatype Call = Call(wanted: nat, spare: nat, sent: bool)

  datatype Body =
    | BatchBody(batch: Batch, verdicts: seq<Verdict>)
    | AcceptedBody(logicalId: LogicalId)
    | ErrorBody(retryable: bool, closed: bool)
    | DeliveredBody(logicalId: LogicalId)
    | OtherBody

  // ----- dispatch and requests -----

  function RequestId(f: Flight, call: Call): nat {
    if call.wanted == EMPTY_ID || call.wanted in f.requests then call.spare else call.wanted
  }

  function Dispatch(f: Flight, call: Call, op: Request, now: int): Flight {
    if !call.sent then f
    else
      var id := RequestId(f, call);
      f.(requests := f.requests[id := op], deadlines := f.deadlines[id := now + TIMEOUT])
  }

  function RequestSync(f: Flight, call: Call, now: int): Flight {
    if !f.connected || f.syncing || !call.sent then f else Dispatch(f, call, Sync, now).(syncing := true)
  }

  predicate Syncing(f: Flight) {
    exists id :: id in f.requests && f.requests[id] == Sync
  }

  predicate InFlight(f: Flight, l: LogicalId) {
    exists id :: id in f.requests && f.requests[id] == Outbox(l)
  }

  function Overdue(f: Flight, now: int): set<nat> {
    set id | id in f.deadlines && f.deadlines[id] <= now
  }

  function SendsOf(requests: map<nat, Request>, ids: set<nat>): set<LogicalId> {
    set id | id in ids && id in requests && requests[id].Outbox? :: requests[id].logicalId
  }

  predicate HasSync(requests: map<nat, Request>, ids: set<nat>) {
    exists id :: id in ids && id in requests && requests[id] == Sync
  }

  function Delayed(retryAfter: map<LogicalId, int>, ids: set<LogicalId>, until: int): map<LogicalId, int> {
    map l | l in retryAfter.Keys + ids :: if l in ids then until else retryAfter[l]
  }

  function Expire(f: Flight, now: int): Flight {
    var expired := Overdue(f, now);
    f.(requests := f.requests - expired,
       deadlines := f.deadlines - expired,
       syncing := f.syncing && !HasSync(f.requests, expired),
       retryAfter := Delayed(f.retryAfter, SendsOf(f.requests, expired), now + RETRY_DELAY))
  }

  function PendingOf(f: Flight, id: nat): Option<Request> {
    if id != EMPTY_ID && id in f.requests then Some(f.requests[id]) else None
  }

  function Answered(f: Flight, id: nat): Flight {
    if id == EMPTY_ID then f else f.(requests := f.requests - {id}, deadlines := f.deadlines - {id})
  }

  function AfterError(f: Flight, pending: Option<Request>, retryable: bool, closed: bool, now: int): Flight {
    var f1 := if pending == Some(Sync) then f.(syncing := false) else f;
    var f2 :=
      if pending.Some? && pending.value.Outbox? then
        var l := pending.value.logicalId;
        if retryable then f1.(retryAfter := f1.retryAfter[l := now + RETRY_DELAY])
        else f1.(retryAfter := f1.retryAfter - {l}, blocked := f1.blocked + {l})
      else f1;
    if closed then f2.(connected := false, syncing := false, requests := map[], deadlines := map[]) else f2
  }

  /** What handling one frame from the relay does to the bookkeeping. */
  function Receive(f: Flight, id: nat, body: Body, now: int): Flight {
    var pending := PendingOf(f, id);
    var g := Answered(f, id);
    match body
    case BatchBody(_, _) => if pending == Some(Sync) || !Syncing(g) then g.(syncing := false) else g
    case AcceptedBody(l) => g.(blocked := g.blocked - {l}, retryAfter := g.retryAfter - {l})
    case ErrorBody(retryable, closed) => AfterError(g, pending, retryable, closed, now)
    case _ => g
  }

  function Reset(f: Flight): Flight {
    f.(connected := false, syncing := false, requests := map[], deadlines := map[])
  }

  // ----- sending what is queued -----

  datatype Item = Item(logicalId: LogicalId, call: Call)

  function ResendOne(f: Flight, item: Item, now: int): Flight {
    if item.logicalId in f.blocked || item.logicalId in f.retryAfter || InFlight(f, item.logicalId) then f
    else Dispatch(f, item.call, Outbox(item.logicalId), now)
  }

  function ResendItems(f: Flight, items: seq<Item>, now: int): Flight
    decreases |items|
  {
    if items == [] then f else ResendItems(ResendOne(f, items[0], now), items[1..], now)
  }

  function StillWaiting(retryAfter: map<LogicalId, int>, now: int): map<LogicalId, int> {
    map l | l in retryAfter && retryAfter[l] > now :: retryAfter[l]
  }

  function Resend(f: Flight, items: seq<Item>, now: int): Flight {
    ResendItems(f.(retryAfter := StillWaiting(f.retryAfter, now)), items, now)
  }

  // The running client: volatile bookkeeping and durable store.
  datatype Client = Client(flight: Flight, local: Local)

  // A deletion event to announce: its id, the encrypted frame for the other devices, and the dispatch.
  datatype Announcement = Announcement(syncId: LogicalId, frame: seq<Wire>, call: Call)

  /** sync_pending_conversation_deletions, over the pending tombstones it has read. */
  function Announce(c: Client, todo: seq<Announcement>, targets: bool, now: int): Client
    decreases |todo|
  {
    if todo == [] then c
    else
      var a := todo[0];
      if a.syncId in c.local.outbox then Announce(c, todo[1..], targets, now)
      else if !targets then Announce(c.(local := MarkSynced(c.local, a.syncId)), todo[1..], targets, now)
      else
        var queued := c.(local := CommitControlOutgoing(c.local, a.syncId, a.frame));
        // a full queue ends the loop; the frame stays in the outbox
        if !a.call.sent then queued
        else Announce(queued.(flight := Dispatch(c.flight, a.call, Outbox(a.syncId), now)), todo[1..], targets, now)
  }

  // ----- bookkeeping invariants -----

  /** Requests and deadlines have the same keys. */
  ghost predicate SameKeys(f: Flight) {
    f.requests.Keys == f.deadlines.Keys
  }

  ghost predicate OneSync(f: Flight) {
    forall i, j :: i in f.requests && j in f.requests && f.requests[i] == Sync && f.requests[j] == Sync ==> i == j
  }

  ghost predicate OneSend(f: Flight) {
    forall i, j :: i in f.requests && j in f.requests && f.requests[i].Outbox? && f.requests[i] == f.requests[j] ==> i == j
  }

  ghost predicate FlagExact(f: Flight) {
    f.syncing <==> Syncing(f)
  }

  ghost predicate Booked(f: Flight) {
    SameKeys(f) && OneSync(f) && OneSend(f) && FlagExact(f)
  }

  /** The random id is new. */
  predicate FreshCall(f: Flight, call: Call) {
    call.spare != EMPTY_ID && call.spare !in f.requests
  }

  lemma DispatchKeepsBooked(f: Flight, call: Call, op: Request, now: int)
    requires Booked(f) && FreshCall(f, call) && op != Sync
    requires op.Outbox? ==> !InFlight(f, op.logicalId)
    ensures Booked(Dispatch(f, call, op, now))
  {
    var g := Dispatch(f, call, op, now);
    if Syncing(f) {
      var i :| i in f.requests && f.requests[i] == Sync;
      assert g.requests[i] == Sync;
    }
  }

  lemma RequestSyncKeepsBooked(f: Flight, call: Call, now: int)
    requires Booked(f) && FreshCall(f, call)
    ensures Booked(RequestSync(f, call, now))
  {
    var g := RequestSync(f, call, now);
    if g != f {
      assert g.requests[RequestId(f, call)] == Sync;
    }
  }

  /** Forgetting some requests keeps the books if the flag is recomputed. */
  lemma RemovalKeepsBooked(f: Flight, ids: set<nat>)
    requires Booked(f)
    ensures Booked(f.(requests := f.requests - ids, deadlines := f.deadlines - ids,
                      syncing := f.syncing && !HasSync(f.requests, ids)))
  {
    var g := f.(requests := f.requests - ids, deadlines := f.deadlines - ids,
                syncing := f.syncing && !HasSync(f.requests, ids));
    if Syncing(f) {
      var i :| i in f.requests && f.requests[i] == Sync;
      if i !in ids {
        assert g.requests[i] == Sync;
      }
    }
  }

  lemma ExpireKeepsBooked(f: Flight, now: int)
    requires Booked(f)
    ensures Booked(Expire(f, now))
  {
    RemovalKeepsBooked(f, Overdue(f, now));
  }

  /** Expiry forgets exactly the requests whose deadline has come, and delays those that were sends. */
  lemma ExpiresExactly(f: Flight, now: int)
    requires SameKeys(f)
    ensures var g := Expire(f, now);
            && (forall id :: id in g.requests <==> id in f.requests && f.deadlines[id] > now)
            && (forall id :: id in g.requests ==> g.requests[id] == f.requests[id] && id in g.deadlines
                                                  && g.deadlines[id] == f.deadlines[id])
            && (forall id :: id in f.requests && f.deadlines[id] <= now && f.requests[id].Outbox? ==>
                  var l := f.requests[id].logicalId; l in g.retryAfter && g.retryAfter[l] == now + 30)
            && g.blocked == f.blocked && g.connected == f.connected
  {
    forall id | id in f.requests && f.deadlines[id] <= now && f.requests[id].Outbox?
      ensures f.requests[id].logicalId in SendsOf(f.requests, Overdue(f, now))
    {
    }
  }

  /** A request waits for its answer for exactly 20 seconds. */
  lemma RequestLives(f: Flight, call: Call, op: Request, now: int, later: int)
    requires SameKeys(f) && call.sent
    ensures var id, g := RequestId(f, call), Dispatch(f, call, op, now);
            && id in g.requests && g.requests[id] == op
            && (id in Expire(g, later).requests <==> later < now + 20)
  {
    ExpiresExactly(Dispatch(f, call, op, now), later);
  }

  /** A sync is requested exactly when the client is connected, none is in flight, and the queue takes it. */
  lemma SyncIsRequestedExactly(f: Flight, call: Call, now: int)
    requires FreshCall(f, call)
    ensures RequestSync(f, call, now) != f <==> f.connected && !f.syncing && call.sent
  {
  }

  /** When the connection is lost nothing is in flight, and no sync goes out; delays and blocks stay. */
  lemma LossSilences(f: Flight, call: Call, now: int)
    ensures var g := Reset(f);
            && g.requests == map[] && g.deadlines == map[] && !g.syncing
            && g.blocked == f.blocked && g.retryAfter == f.retryAfter && RequestSync(g, call, now) == g
  {
  }

  /** A frame takes out the request it answers; an error that closes the connection takes out all. */
  lemma AnswerTakesExactly(f: Flight, id: nat, body: Body, now: int)
    ensures var g := Receive(f, id, body, now);
            var answered := if id == EMPTY_ID then {} else {id};
            if body.ErrorBody? && body.closed then
              g.requests == map[] && g.deadlines == map[] && !g.connected && !g.syncing
            else
              g.requests == f.requests - answered && g.deadlines == f.deadlines - answered && g.connected == f.connected
  {
    assert f.requests - {} == f.requests && f.deadlines - {} == f.deadlines;
  }

  /** Acceptance frees a message to be sent; an error to a send delays it, or blocks it for good. */
  lemma AnswerHoldsExactly(f: Flight, id: nat, body: Body, now: int)
    ensures var g := Receive(f, id, body, now);
            match body
            case AcceptedBody(l) => g.blocked == f.blocked - {l} && g.retryAfter == f.retryAfter - {l}
            case ErrorBody(retryable, _) =>
              if id != EMPTY_ID && id in f.requests && f.requests[id].Outbox? then
                var l := f.requests[id].logicalId;
                if retryable then g.blocked == f.blocked && g.retryAfter == f.retryAfter[l := now + 30]
                else g.blocked == f.blocked + {l} && g.retryAfter == f.retryAfter - {l}
              else g.blocked == f.blocked && g.retryAfter == f.retryAfter
            case _ => g.blocked == f.blocked && g.retryAfter == f.retryAfter
  {
  }

  /** An answer to the sync request that is neither a batch nor an error. */
  predicate StrayAnswer(f: Flight, id: nat, body: Body) {
    PendingOf(f, id) == Some(Sync) && !body.BatchBody? && !body.ErrorBody?
  }

  /** After its answer is taken out, the books are right but for the flag, which still counts the sync. */
  lemma AnsweredBooks(f: Flight, id: nat)
    requires Booked(f)
    ensures var g := Answered(f, id);
            && SameKeys(g) && OneSync(g) && OneSend(g) && g.syncing == f.syncing
            && (Syncing(g) <==> f.syncing && PendingOf(f, id) != Some(Sync))
  {
    var ids := if id == EMPTY_ID then {} else {id};
    RemovalKeepsBooked(f, ids);
    var h := f.(requests := f.requests - ids, deadlines := f.deadlines - ids,
                syncing := f.syncing && !HasSync(f.requests, ids));
    assert Syncing(h) <==> Syncing(Answered(f, id));
  }

  lemma SyncingSame(g: Flight, h: Flight)
    requires h.requests == g.requests
    ensures Syncing(h) <==> Syncing(g)
  {
  }

  /** The sync flag stays exact unless, and only unless, the sync is answered by something else. */
  lemma AnswerKeepsFlagExactly(f: Flight, id: nat, body: Body, now: int)
    requires Booked(f)
    ensures SameKeys(Receive(f, id, body, now)) && OneSync(Receive(f, id, body, now)) && OneSend(Receive(f, id, body, now))
    ensures FlagExact(Receive(f, id, body, now)) <==> !StrayAnswer(f, id, body)
  {
    AnsweredBooks(f, id);
    var g, h := Answered(f, id), Receive(f, id, body, now);
    assert h.requests == map[] || h.requests == g.requests;
    if h.requests == g.requests {
      SyncingSame(g, h);
    }
  }

  lemma ResendOneKeepsBooked(f: Flight, item: Item, now: int)
    requires Booked(f) && FreshCall(f, item.call)
    ensures Booked(ResendOne(f, item, now))
  {
    if !InFlight(f, item.logicalId) {
      DispatchKeepsBooked(f, item.call, Outbox(item.logicalId), now);
    }
  }

  /** Random ids are new, and differ from each other and from every id a frame asks for. */
  ghost predicate FreshCalls(used: set<nat>, calls: seq<Call>) {
    && (forall k :: k in calls ==> k.spare != EMPTY_ID && k.spare !in used)
    && (forall j, k :: j in calls && k in calls ==> j.spare != k.wanted)
    && (forall j, k :: 0 <= j < k < |calls| ==> calls[j].spare != calls[k].spare)
  }

  function CallsOf(items: seq<Item>): (calls: seq<Call>)
    ensures |calls| == |items| && forall i :: 0 <= i < |items| ==> calls[i] == items[i].call
  {
    if items == [] then [] else [items[0].call] + CallsOf(items[1..])
  }

  lemma FreshTail(f: Flight, g: Flight, calls: seq<Call>)
    requires calls != [] && FreshCalls(f.requests.Keys, calls)
    requires g.requests.Keys <= f.requests.Keys + {RequestId(f, calls[0])}
    ensures FreshCalls(g.requests.Keys, calls[1..])
  {
    assert calls[0] in calls;
    forall k | k in calls[1..] ensures k in calls && k.spare != calls[0].spare {
      var i :| 0 <= i < |calls[1..]| && calls[1..][i] == k;
      assert calls[i + 1] == k;
    }
  }

  lemma {:induction false} ResendKeepsBooked(f: Flight, items: seq<Item>, now: int)
    requires Booked(f) && FreshCalls(f.requests.Keys, CallsOf(items))
    ensures Booked(ResendItems(f, items, now))
    decreases |items|
  {
    if items == [] {
    } else {
      assert CallsOf(items)[0] in CallsOf(items);
      ResendOneKeepsBooked(f, items[0], now);
      var g := ResendOne(f, items[0], now);
      FreshTail(f, g, CallsOf(items));
      assert CallsOf(items)[1..] == CallsOf(items[1..]);
      ResendKeepsBooked(g, items[1..], now);
    }
  }

  /** After a pass over the outbox, whatever is neither blocked nor waiting nor refused is in flight. */
  lemma {:induction false} ResendSendsAll(f: Flight, items: seq<Item>, now: int, item: Item)
    requires item in items && item.call.sent && FreshCalls(f.requests.Keys, CallsOf(items))
    requires item.logicalId !in f.blocked && item.logicalId !in f.retryAfter
    ensures InFlight(ResendItems(f, items, now), item.logicalId)
    decreases |items|
  {
    var g := ResendOne(f, items[0], now);
    FreshTail(f, g, CallsOf(items));
    assert CallsOf(items)[1..] == CallsOf(items[1..]);
    if item == items[0] {
      assert InFlight(g, item.logicalId) by {
        if !InFlight(f, item.logicalId) {
          assert g.requests[RequestId(f, item.call)] == Outbox(item.logicalId);
        }
      }
      assert CallsOf(items)[0] in CallsOf(items);
      ResendKeepsSending(g, items[1..], now, item.logicalId);
    } else {
      ResendSendsAll(g, items[1..], now, item);
    }
  }

  lemma DispatchKeepsSending(f: Flight, call: Call, op: Request, now: int, l: LogicalId)
    requires InFlight(f, l) && FreshCall(f, call)
    ensures InFlight(Dispatch(f, call, op, now), l)
  {
    var i :| i in f.requests && f.requests[i] == Outbox(l);
    assert call.sent ==> Dispatch(f, call, op, now).requests[i] == Outbox(l);
  }

  lemma {:induction false} ResendKeepsSending(f: Flight, items: seq<Item>, now: int, l: LogicalId)
    requires InFlight(f, l) && FreshCalls(f.requests.Keys, CallsOf(items))
    ensures InFlight(ResendItems(f, items, now), l)
    decreases |items|
  {
    if items == [] {
    } else {
      assert CallsOf(items)[0] in CallsOf(items);
      DispatchKeepsSending(f, items[0].call, Outbox(items[0].logicalId), now, l);
      var g := ResendOne(f, items[0], now);
      FreshTail(f, g, CallsOf(items));
      assert CallsOf(items)[1..] == CallsOf(items[1..]);
      ResendKeepsSending(g, items[1..], now, l);
    }
  }

  // ----- waiting and blocked sends -----

  /** A pass sends nothing that is blocked or waiting. */
  lemma {:induction false} ResendLeavesOut(f: Flight, items: seq<Item>, now: int, l: LogicalId)
    requires (l in f.blocked || l in f.retryAfter) && !InFlight(f, l) && FreshCalls(f.requests.Keys, CallsOf(items))
    ensures !InFlight(ResendItems(f, items, now), l)
    decreases |items|
  {
    if items == [] {
    } else {
      var g := ResendOne(f, items[0], now);
      assert forall i :: i in g.requests && g.requests[i] == Outbox(l) ==> i in f.requests && f.requests[i] == Outbox(l);
      FreshTail(f, g, CallsOf(items));
      assert CallsOf(items)[1..] == CallsOf(items[1..]);
      ResendLeavesOut(g, items[1..], now, l);
    }
  }
}
