/** Connection accounting of the relay, and the registry of live connections by device. */
module Admission {
  import opened Ids
  import opened Sums

  type Ip = nat
  type Counts = map<Ip, int>

  datatype Caps = Caps(total: nat, perIp: nat, waitingPerIp: nat)

  datatype Tally = Tally(total: int, byIp: Counts, waiting: Counts)

  function CountOf(counts: Counts, ip: Ip): int {
    if ip in counts then counts[ip] else 0
  }

  function Increment(counts: Counts, ip: Ip): Counts {
    counts[ip := CountOf(counts, ip) + 1]
  }

  function Saturating(n: int): int {
    if n <= 0 then 0 else n - 1
  }

  /** decrement_count: entries that reach zero are dropped. */
  function Decrement(counts: Counts, ip: Ip): Counts {
    if ip !in counts then counts
    else if Saturating(counts[ip]) == 0 then counts - {ip}
    else counts[ip := Saturating(counts[ip])]
  }

  predicate Admits(t: Tally, caps: Caps, ip: Ip) {
    t.total < caps.total && CountOf(t.byIp, ip) < caps.perIp && CountOf(t.waiting, ip) < caps.waitingPerIp
  }

  function Admitted(t: Tally, ip: Ip): Tally {
    Tally(t.total + 1, Increment(t.byIp, ip), Increment(t.waiting, ip))
  }

  function Authenticated(t: Tally, ip: Ip): Tally {
    t.(waiting := Decrement(t.waiting, ip))
  }

  function Released(t: Tally, ip: Ip, stillWaiting: bool): Tally {
    Tally(Saturating(t.total), Decrement(t.byIp, ip), if stillWaiting then Decrement(t.waiting, ip) else t.waiting)
  }

  /** The counters as the relay keeps them, and beside them the connections that are really open. */
  class Gatekeeper {
    var total: int
    var byIp: Counts
    var waiting: Counts
    const caps: Caps
    ghost var open: map<ConnectionId, Connection>

    function Value(): Tally
      reads this
    {
      Tally(total, byIp, waiting)
    }

    ghost function Entrance(): Door
      reads this
    {
      Door(Value(), open)
    }

    /** The counters are the numbers of open connections, and within the limits. */
    ghost predicate Valid()
      reads this
    {
      Exact(Entrance()) && WithinCaps(Entrance(), caps)
    }

    constructor (caps: Caps)
      ensures Valid() && Value() == Tally(0, map[], map[]) && open == map[] && this.caps == caps
    {
      total, byIp, waiting := 0, map[], map[];
      this.caps := caps;
      open := map[];
      new;
      EmptyIsExact(caps);
      assert Entrance() == Door(Tally(0, map[], map[]), map[]);
    }

    /** A connection is let in if and only if no limit is reached by the connections that are open. */
    method Admit(ip: Ip, ghost id: ConnectionId) returns (ok: bool)
      requires Valid() && id !in open
      modifies this
      ensures Valid() && Entrance() == Step(old(Entrance()), caps, Arrive(id, ip))
      ensures ok <==> |old(open)| < caps.total && |From(old(open), ip)| < caps.perIp
                      && |WaitingFrom(old(open), ip)| < caps.waitingPerIp
      ensures open == if ok then old(open)[id := Connection(ip, false)] else old(open)
    {
      ghost var d := Entrance();
      AdmitsExactly(d, caps, id, ip);
      if total >= caps.total || CountOf(byIp, ip) >= caps.perIp || CountOf(waiting, ip) >= caps.waitingPerIp {
        return false;
      }
      total := total + 1;
      byIp := byIp[ip := CountOf(byIp, ip) + 1];
      waiting := waiting[ip := CountOf(waiting, ip) + 1];
      open := open[id := Connection(ip, false)];
      ok := true;
      assert Entrance() == Step(d, caps, Arrive(id, ip));
    }

    static method DecrementCount(counts: Counts, ip: Ip) returns (after: Counts)
      ensures after == Decrement(counts, ip)
    {
      after := counts;
      if ip in after {
        after := after[ip := Saturating(after[ip])];
        if after[ip] == 0 {
          after := after - {ip};
          assert after == counts - {ip};
        }
      }
    }

    method MarkAuthenticated(ip: Ip, ghost id: ConnectionId)
      requires Valid() && id in open && open[id] == Connection(ip, false)
      modifies this
      ensures Valid() && Entrance() == Step(old(Entrance()), caps, Authenticate(id))
      ensures open == old(open)[id := Connection(ip, true)]
    {
      StepKeeps(Entrance(), caps, Authenticate(id));
      waiting := DecrementCount(waiting, ip);
      open := open[id := open[id].(authenticated := true)];
    }

    /** Closing one connection takes exactly that one out of the counts; no counter saturates. */
    method Release(ip: Ip, stillWaiting: bool, ghost id: ConnectionId)
      requires Valid() && id in open && open[id] == Connection(ip, !stillWaiting)
      modifies this
      ensures Valid() && Entrance() == Step(old(Entrance()), caps, Leave(id))
      ensures open == old(open) - {id} && total == old(total) - 1
      ensures CountOf(byIp, ip) == old(CountOf(byIp, ip)) - 1
    {
      ghost var d := Entrance();
      ReleaseFacts(d, caps, id);
      total := Saturating(total);
      byIp := DecrementCount(byIp, ip);
      if stillWaiting {
        waiting := DecrementCount(waiting, ip);
      }
      open := open - {id};
      assert Entrance() == Step(d, caps, Leave(id));
    }
  }

  /** Whether a connection is let in, in terms of the connections that are open. */
  lemma AdmitsExactly(d: Door, caps: Caps, id: ConnectionId, ip: Ip)
    requires Exact(d) && WithinCaps(d, caps)
    ensures Admits(d.tally, caps, ip) <==> |d.open| < caps.total && |From(d.open, ip)| < caps.perIp
                                           && |WaitingFrom(d.open, ip)| < caps.waitingPerIp
    ensures Exact(Step(d, caps, Arrive(id, ip))) && WithinCaps(Step(d, caps, Arrive(id, ip)), caps)
  {
    StepKeeps(d, caps, Arrive(id, ip));
    assert CountOf(d.tally.byIp, ip) == |From(d.open, ip)| && CountOf(d.tally.waiting, ip) == |WaitingFrom(d.open, ip)|;
  }

  lemma ReleaseFacts(d: Door, caps: Caps, id: ConnectionId)
    requires Exact(d) && WithinCaps(d, caps) && id in d.open
    ensures Exact(Step(d, caps, Leave(id))) && WithinCaps(Step(d, caps, Leave(id)), caps)
    ensures Step(d, caps, Leave(id)).tally.total == d.tally.total - 1
    ensures CountOf(Step(d, caps, Leave(id)).tally.byIp, d.open[id].ip) == CountOf(d.tally.byIp, d.open[id].ip) - 1
  {
    StepKeeps(d, caps, Leave(id));
    NothingSaturates(d, id);
  }

  lemma EmptyIsExact(caps: Caps)
    ensures var d := Door(Tally(0, map[], map[]), map[]);
            Exact(d) && WithinCaps(d, caps)
  {
  }

  // ----- connections over a run -----

  type ConnectionId = nat

  datatype Connection = Connection(ip: Ip, authenticated: bool)

  // The counters, and the connections that are really open.
  datatype Door = Door(tally: Tally, open: map<ConnectionId, Connection>)

  // A connection is admitted and released once, and marked authenticated at most once, when its
  // first session exists.
  datatype Event = Arrive(id: ConnectionId, ip: Ip) | Authenticate(id: ConnectionId) | Leave(id: ConnectionId)

  function Step(d: Door, caps: Caps, e: Event): Door {
    match e
    case Arrive(id, ip) =>
      if id in d.open || !Admits(d.tally, caps, ip) then d
      else Door(Admitted(d.tally, ip), d.open[id := Connection(ip, false)])
    case Authenticate(id) =>
      if id !in d.open || d.open[id].authenticated then d
      else Door(Authenticated(d.tally, d.open[id].ip), d.open[id := d.open[id].(authenticated := true)])
    case Leave(id) =>
      if id !in d.open then d
      else Door(Released(d.tally, d.open[id].ip, !d.open[id].authenticated), d.open - {id})
  }

  function Run(d: Door, caps: Caps, events: seq<Event>): Door
    decreases |events|
  {
    if events == [] then d else Run(Step(d, caps, events[0]), caps, events[1..])
  }

  function From(open: map<ConnectionId, Connection>, ip: Ip): set<ConnectionId> {
    set id | id in open && open[id].ip == ip
  }

  function WaitingFrom(open: map<ConnectionId, Connection>, ip: Ip): set<ConnectionId> {
    set id | id in open && open[id].ip == ip && !open[id].authenticated
  }

  /** Counters are the numbers of open connections; addresses without any have no entry. */
  ghost predicate Exact(d: Door) {
    && d.tally.total == |d.open|
    && (forall ip :: CountOf(d.tally.byIp, ip) == |From(d.open, ip)|)
    && (forall ip :: CountOf(d.tally.waiting, ip) == |WaitingFrom(d.open, ip)|)
    && (forall ip :: ip in d.tally.byIp ==> d.tally.byIp[ip] > 0)
    && (forall ip :: ip in d.tally.waiting ==> d.tally.waiting[ip] > 0)
    && SumMap(d.tally.byIp) == d.tally.total
  }

  ghost predicate WithinCaps(d: Door, caps: Caps) {
    && d.tally.total <= caps.total
    && (forall ip :: CountOf(d.tally.byIp, ip) <= caps.perIp && CountOf(d.tally.waiting, ip) <= caps.waitingPerIp)
  }

  lemma OpenOne(open: map<ConnectionId, Connection>, id: ConnectionId, ip: Ip, a: Ip)
    requires id !in open
    ensures var after := open[id := Connection(ip, false)];
            && |after| == |open| + 1
            && |From(after, a)| == |From(open, a)| + (if a == ip then 1 else 0)
            && |WaitingFrom(after, a)| == |WaitingFrom(open, a)| + (if a == ip then 1 else 0)
  {
    var after := open[id := Connection(ip, false)];
    assert after.Keys == open.Keys + {id} && |after| == |after.Keys| && |open| == |open.Keys|;
    OpenSets(open, id, ip, a);
  }

  lemma OpenSets(open: map<ConnectionId, Connection>, id: ConnectionId, ip: Ip, a: Ip)
    requires id !in open
    ensures var after := open[id := Connection(ip, false)];
            var more := if a == ip then {id} else {};
            && From(after, a) == From(open, a) + more && From(open, a) !! more
            && WaitingFrom(after, a) == WaitingFrom(open, a) + more && WaitingFrom(open, a) !! more
  {
  }

  lemma MarkOne(open: map<ConnectionId, Connection>, id: ConnectionId, a: Ip)
    requires id in open && !open[id].authenticated
    ensures var after := open[id := open[id].(authenticated := true)];
            && |after| == |open|
            && |From(after, a)| == |From(open, a)|
            && |WaitingFrom(after, a)| == |WaitingFrom(open, a)| - (if a == open[id].ip then 1 else 0)
  {
    var after := open[id := open[id].(authenticated := true)];
    assert after.Keys == open.Keys && |after| == |after.Keys| && |open| == |open.Keys|;
    assert From(after, a) == From(open, a);
    assert WaitingFrom(after, a) == WaitingFrom(open, a) - (if a == open[id].ip then {id} else {});
  }

  lemma CloseOne(open: map<ConnectionId, Connection>, id: ConnectionId, a: Ip)
    requires id in open
    ensures var after := open - {id};
            var c := open[id];
            && |after| == |open| - 1
            && |From(after, a)| == |From(open, a)| - (if a == c.ip then 1 else 0)
            && |WaitingFrom(after, a)| == |WaitingFrom(open, a)| - (if a == c.ip && !c.authenticated then 1 else 0)
  {
    var after := open - {id};
    assert after.Keys == open.Keys - {id} && |after| == |after.Keys| && |open| == |open.Keys|;
    assert From(after, a) == From(open, a) - (if a == open[id].ip then {id} else {});
    assert WaitingFrom(after, a)
        == WaitingFrom(open, a) - (if a == open[id].ip && !open[id].authenticated then {id} else {});
  }

  lemma Present(open: map<ConnectionId, Connection>, id: ConnectionId)
    requires id in open
    ensures |open| >= 1 && |From(open, open[id].ip)| >= 1
    ensures !open[id].authenticated ==> |WaitingFrom(open, open[id].ip)| >= 1
  {
    assert id in open.Keys && |open| == |open.Keys|;
    assert id in From(open, open[id].ip);
    assert !open[id].authenticated ==> id in WaitingFrom(open, open[id].ip);
  }

  /** Nothing saturates: what a step subtracts from is always at least one. */
  lemma NothingSaturates(d: Door, id: ConnectionId)
    requires Exact(d) && id in d.open
    ensures d.tally.total >= 1 && CountOf(d.tally.byIp, d.open[id].ip) >= 1
    ensures !d.open[id].authenticated ==> CountOf(d.tally.waiting, d.open[id].ip) >= 1
  {
    Present(d.open, id);
  }

  lemma IncrementCounts(counts: Counts, ip: Ip, a: Ip)
    ensures CountOf(Increment(counts, ip), a) == CountOf(counts, a) + (if a == ip then 1 else 0)
    ensures SumMap(Increment(counts, ip)) == SumMap(counts) + 1
  {
    SumUpdate(counts, ip, CountOf(counts, ip) + 1);
  }

  lemma DecrementCounts(counts: Counts, ip: Ip, a: Ip)
    requires CountOf(counts, ip) >= 1
    ensures CountOf(Decrement(counts, ip), a) == CountOf(counts, a) - (if a == ip then 1 else 0)
    ensures SumMap(Decrement(counts, ip)) == SumMap(counts) - 1
  {
    SumUpdate(counts, ip, counts[ip] - 1);
    if counts[ip] == 1 {
      SumRemove(counts, ip);
    }
  }

  lemma ArriveKeepsExact(d: Door, caps: Caps, id: ConnectionId, ip: Ip)
    requires Exact(d)
    ensures Exact(Step(d, caps, Arrive(id, ip)))
  {
    if id !in d.open && Admits(d.tally, caps, ip) {
      var s := Step(d, caps, Arrive(id, ip));
      IncrementCounts(d.tally.byIp, ip, ip);
      forall a: Ip
        ensures CountOf(s.tally.byIp, a) == |From(s.open, a)| && CountOf(s.tally.waiting, a) == |WaitingFrom(s.open, a)|
        ensures s.tally.total == |s.open|
      {
        OpenOne(d.open, id, ip, a);
        IncrementCounts(d.tally.byIp, ip, a);
        IncrementCounts(d.tally.waiting, ip, a);
      }
      assert CountOf(s.tally.byIp, ip) == |From(s.open, ip)|;
    }
  }

  lemma AuthenticateKeepsExact(d: Door, caps: Caps, id: ConnectionId)
    requires Exact(d)
    ensures Exact(Step(d, caps, Authenticate(id)))
  {
    if id in d.open && !d.open[id].authenticated {
      var s := Step(d, caps, Authenticate(id));
      NothingSaturates(d, id);
      forall a: Ip
        ensures CountOf(s.tally.byIp, a) == |From(s.open, a)| && CountOf(s.tally.waiting, a) == |WaitingFrom(s.open, a)|
        ensures s.tally.total == |s.open|
      {
        MarkOne(d.open, id, a);
        DecrementCounts(d.tally.waiting, d.open[id].ip, a);
      }
      assert CountOf(s.tally.byIp, 0) == |From(s.open, 0)|;
    }
  }

  lemma LeaveKeepsExact(d: Door, caps: Caps, id: ConnectionId)
    requires Exact(d)
    ensures Exact(Step(d, caps, Leave(id)))
  {
    if id in d.open {
      var s := Step(d, caps, Leave(id));
      var c := d.open[id];
      NothingSaturates(d, id);
      forall a: Ip
        ensures CountOf(s.tally.byIp, a) == |From(s.open, a)| && CountOf(s.tally.waiting, a) == |WaitingFrom(s.open, a)|
        ensures s.tally.total == |s.open|
      {
        CloseOne(d.open, id, a);
        DecrementCounts(d.tally.byIp, c.ip, a);
        if !c.authenticated {
          DecrementCounts(d.tally.waiting, c.ip, a);
        }
      }
      DecrementCounts(d.tally.byIp, c.ip, c.ip);
      assert CountOf(s.tally.byIp, c.ip) == |From(s.open, c.ip)|;
    }
  }

  lemma ArriveKeepsCaps(d: Door, caps: Caps, id: ConnectionId, ip: Ip)
    requires WithinCaps(d, caps)
    ensures WithinCaps(Step(d, caps, Arrive(id, ip)), caps)
  {
    var s := Step(d, caps, Arrive(id, ip));
    if s != d {
      forall a: Ip ensures CountOf(s.tally.byIp, a) <= caps.perIp && CountOf(s.tally.waiting, a) <= caps.waitingPerIp {
        IncrementCounts(d.tally.byIp, ip, a);
        IncrementCounts(d.tally.waiting, ip, a);
        assert CountOf(d.tally.byIp, a) <= caps.perIp && CountOf(d.tally.waiting, a) <= caps.waitingPerIp;
      }
    }
  }

  lemma DecrementLowers(counts: Counts, ip: Ip)
    requires forall i :: i in counts ==> counts[i] > 0
    ensures forall a :: CountOf(Decrement(counts, ip), a) <= CountOf(counts, a)
  {
  }

  lemma FewerKeepCaps(d: Door, caps: Caps, e: Event)
    requires Exact(d) && WithinCaps(d, caps) && !e.Arrive?
    ensures WithinCaps(Step(d, caps, e), caps)
  {
    if e.id in d.open {
      DecrementLowers(d.tally.byIp, d.open[e.id].ip);
      DecrementLowers(d.tally.waiting, d.open[e.id].ip);
      NothingSaturates(d, e.id);
    }
  }

  lemma StepKeeps(d: Door, caps: Caps, e: Event)
    requires Exact(d) && WithinCaps(d, caps)
    ensures Exact(Step(d, caps, e)) && WithinCaps(Step(d, caps, e), caps)
  {
    match e
    case Arrive(id, ip) =>
      ArriveKeepsExact(d, caps, id, ip);
      ArriveKeepsCaps(d, caps, id, ip);
    case Authenticate(id) =>
      AuthenticateKeepsExact(d, caps, id);
      FewerKeepCaps(d, caps, e);
    case Leave(id) =>
      LeaveKeepsExact(d, caps, id);
      FewerKeepCaps(d, caps, e);
  }

  /** From a relay without connections, over any run: counters are exact and every limit holds. */
  lemma CountsFromStart(caps: Caps, events: seq<Event>)
    ensures var d := Run(Door(Tally(0, map[], map[]), map[]), caps, events);
            Exact(d) && WithinCaps(d, caps)
  {
    EmptyIsExact(caps);
    RunKeepsCounts(Door(Tally(0, map[], map[]), map[]), caps, events);
  }

  /** Over any run: counters are exact, their sum is the total, and every limit holds. */
  lemma {:induction false} RunKeepsCounts(d: Door, caps: Caps, events: seq<Event>)
    requires Exact(d) && WithinCaps(d, caps)
    ensures Exact(Run(d, caps, events)) && WithinCaps(Run(d, caps, events), caps)
    decreases |events|
  {
    if events == [] {
    } else {
      StepKeeps(d, caps, events[0]);
      RunKeepsCounts(Step(d, caps, events[0]), caps, events[1..]);
    }
  }

  /** At every address, at most as many connections wait for authentication as are open. */
  lemma WaitingAreConnected(d: Door, ip: Ip)
    requires Exact(d)
    ensures CountOf(d.tally.waiting, ip) <= CountOf(d.tally.byIp, ip)
  {
    Smaller(WaitingFrom(d.open, ip), From(d.open, ip));
  }

  // ----- the registry -----

  type Token = nat

  datatype Registry = Registry(connections: map<DeviceId, Token>, sessions: map<Token, DeviceId>)

  datatype RegistryOp = Register(device: DeviceId, token: Token) | Unregister(device: DeviceId, token: Token)

  function Apply(r: Registry, op: RegistryOp): Registry {
    match op
    case Register(device, token) => Registry(r.connections[device := token], r.sessions[token := device])
    case Unregister(device, token) =>
      Registry(
        if device in r.connections && r.connections[device] == token then r.connections - {device} else r.connections,
        r.sessions - {token})
  }

  function ApplyAll(r: Registry, ops: seq<RegistryOp>): Registry
    decreases |ops|
  {
    if ops == [] then r else ApplyAll(Apply(r, ops[0]), ops[1..])
  }

  class LiveConnections {
    var connections: map<DeviceId, Token>
    var sessions: map<Token, DeviceId>

    function Value(): Registry
      reads this
    {
      Registry(connections, sessions)
    }

    constructor ()
      ensures Value() == Registry(map[], map[])
    {
      connections, sessions := map[], map[];
    }

    /** Returns the connection that was replaced, which is told to close. */
    method Add(device: DeviceId, token: Token) returns (replaced: Option<Token>)
      modifies this
      ensures Value() == Apply(old(Value()), Register(device, token))
      ensures replaced == if device in old(connections) then Some(old(connections)[device]) else None
    {
      replaced := if device in connections then Some(connections[device]) else None;
      connections := connections[device := token];
      sessions := sessions[token := device];
    }

    method Remove(device: DeviceId, token: Token)
      modifies this
      ensures Value() == Apply(old(Value()), Unregister(device, token))
    {
      if device in connections && connections[device] == token {
        connections := connections - {device};
      }
      sessions := sessions - {token};
    }
  }

  /** The operation ends this very connection, or replaces it by a later one. */
  predicate Ends(op: RegistryOp, device: DeviceId, token: Token) {
    op.device == device && (op.Register? || op.token == token)
  }

  /**
   A registered connection stays reachable until its own end or its replacement, whatever late
   unregisters of earlier connections of the device come in.
   */
  lemma {:induction false} StaleUnregisterIsHarmless(r: Registry, device: DeviceId, token: Token, ops: seq<RegistryOp>)
    requires forall op :: op in ops ==> !Ends(op, device, token)
    requires device in r.connections && r.connections[device] == token
    ensures var s := ApplyAll(r, ops); device in s.connections && s.connections[device] == token
    decreases |ops|
  {
    if ops == [] {
    } else {
      assert !Ends(ops[0], device, token);
      StaleUnregisterIsHarmless(Apply(r, ops[0]), device, token, ops[1..]);
    }
  }

  predicate Reachable(r: Registry, device: DeviceId, token: Token) {
    device in r.connections && r.connections[device] == token
  }

  /** Operation k registers this connection, and no later one ends it. */
  predicate LastRegistered(ops: seq<RegistryOp>, k: nat, device: DeviceId, token: Token)
    requires k < |ops|
  {
    ops[k] == Register(device, token) && forall j :: k < j < |ops| ==> !Ends(ops[j], device, token)
  }

  lemma OneOpReaches(r: Registry, op: RegistryOp, device: DeviceId, token: Token)
    ensures Reachable(Apply(r, op), device, token)
       <==> op == Register(device, token) || (Reachable(r, device, token) && !Ends(op, device, token))
  {
  }

  lemma LaterRegistered(ops: seq<RegistryOp>, k: nat, device: DeviceId, token: Token)
    requires k + 1 < |ops|
    ensures LastRegistered(ops[1..], k, device, token) <==> LastRegistered(ops, k + 1, device, token)
  {
    if LastRegistered(ops[1..], k, device, token) {
      forall j | k + 1 < j < |ops| ensures !Ends(ops[j], device, token) {
        assert ops[j] == ops[1..][j - 1];
      }
    }
  }

  /** After any operations a connection is reachable if and only if it was registered and not ended since. */
  lemma {:induction false} ReachableExactly(r: Registry, device: DeviceId, token: Token, ops: seq<RegistryOp>)
    ensures Reachable(ApplyAll(r, ops), device, token)
       <==> || (Reachable(r, device, token) && forall op :: op in ops ==> !Ends(op, device, token))
            || exists k: nat :: k < |ops| && LastRegistered(ops, k, device, token)
    decreases |ops|
  {
    if ops == [] {
    } else {
      var rest := ops[1..];
      OneOpReaches(r, ops[0], device, token);
      ReachableExactly(Apply(r, ops[0]), device, token, rest);
      assert ops == [ops[0]] + rest;
      forall k: nat | k < |rest|
        ensures LastRegistered(rest, k, device, token) <==> LastRegistered(ops, k + 1, device, token)
      {
        LaterRegistered(ops, k, device, token);
      }
      assert LastRegistered(ops, 0, device, token)
        <==> ops[0] == Register(device, token) && forall op :: op in rest ==> !Ends(op, device, token);
      if exists k: nat :: k < |ops| && LastRegistered(ops, k, device, token) {
        var k: nat :| k < |ops| && LastRegistered(ops, k, device, token);
        assert k > 0 ==> LastRegistered(rest, k - 1, device, token);
      }
    }
  }
}
