/** Token buckets over real time, and the tables of them that guard password attempts. */
module Limiter {
  import opened Sums

  datatype Bucket = Bucket(tokens: real, updated: real)

  // Tokens per second, and the most a bucket holds.
  datatype Rate = Rate(perSecond: real, burst: real)

  predicate Sane(rate: Rate) {
    rate.perSecond > 0.0 && rate.burst >= 1.0
  }

  function Min(a: real, b: real): real {
    if a < b then a else b
  }

  function Full(rate: Rate, now: real): Bucket {
    Bucket(rate.burst, now)
  }

  function Gained(rate: Rate, from: real, until: real): real {
    (until - from) * rate.perSecond
  }

  function Refill(b: Bucket, rate: Rate, now: real): Bucket {
    Bucket(Min(b.tokens + Gained(rate, b.updated, now), rate.burst), now)
  }

  function Spend(b: Bucket): (Bucket, bool) {
    if b.tokens < 1.0 then (b, false) else (b.(tokens := b.tokens - 1.0), true)
  }

  function Take(b: Bucket, rate: Rate, now: real): (Bucket, bool) {
    Spend(Refill(b, rate, now))
  }

  /** A bucket that only ever lives under one rate; what it has accepted is counted from its creation. */
  class TokenBucket {
    var tokens: real
    var updated: real
    ghost const rate: Rate
    ghost const since: real
    ghost var accepted: nat

    function Value(): Bucket
      reads this
    {
      Bucket(tokens, updated)
    }

    /** What was accepted so far, and what is left, is covered by the burst and the time since creation. */
    ghost predicate Valid()
      reads this
    {
      && Sane(rate) && since <= updated && 0.0 <= tokens <= rate.burst
      && accepted as real + tokens <= rate.burst + Gained(rate, since, updated)
    }

    constructor (rate: Rate, now: real)
      requires Sane(rate)
      ensures Valid() && Value() == Full(rate, now)
      ensures this.rate == rate && since == now && accepted == 0
    {
      tokens, updated := rate.burst, now;
      this.rate, since, accepted := rate, now, 0;
    }

    /** However often it is called, no more is accepted than the burst and the elapsed time allow. */
    method TakeRate(rate: Rate, now: real) returns (ok: bool)
      requires Valid() && rate == this.rate && updated <= now
      modifies this
      ensures Valid() && (Value(), ok) == Take(old(Value()), rate, now)
      ensures accepted == old(accepted) + if ok then 1 else 0
      ensures accepted as real <= rate.burst + Gained(rate, since, now)
      ensures ok <==> Refill(old(Value()), rate, now).tokens >= 1.0
    {
      TakeSpends(Value(), rate, now);
      GainedAdds(rate, since, updated, now);
      tokens := Min(tokens + Gained(rate, updated, now), rate.burst);
      updated := now;
      if tokens < 1.0 {
        ok := false;
      } else {
        tokens := tokens - 1.0;
        accepted := accepted + 1;
        ok := true;
      }
    }
  }

  // ----- one bucket over a run -----

  function After(b: Bucket, rate: Rate, times: seq<real>): Bucket
    decreases |times|
  {
    if times == [] then b else After(Take(b, rate, times[0]).0, rate, times[1..])
  }

  function Accepted(b: Bucket, rate: Rate, times: seq<real>): nat
    decreases |times|
  {
    if times == [] then 0
    else (if Take(b, rate, times[0]).1 then 1 else 0) + Accepted(Take(b, rate, times[0]).0, rate, times[1..])
  }

  /** Times never go back. */
  ghost predicate Forward(times: seq<real>, from: real) {
    && (forall i :: 0 <= i < |times| ==> times[i] >= from)
    && (forall i, j :: 0 <= i < j < |times| ==> times[i] <= times[j])
  }

  lemma GainedIsPositive(rate: Rate, from: real, until: real)
    requires Sane(rate) && from <= until
    ensures Gained(rate, from, until) >= 0.0
  {
  }

  lemma GainedAdds(rate: Rate, from: real, mid: real, until: real)
    ensures Gained(rate, from, mid) + Gained(rate, mid, until) == Gained(rate, from, until)
  {
  }

  lemma TakeSpends(b: Bucket, rate: Rate, now: real)
    requires Sane(rate) && 0.0 <= b.tokens && b.updated <= now
    ensures var (next, ok) := Take(b, rate, now);
            && 0.0 <= next.tokens <= rate.burst && next.updated == now
            && next.tokens + (if ok then 1.0 else 0.0) <= b.tokens + Gained(rate, b.updated, now)
    ensures 0.0 <= Refill(b, rate, now).tokens <= rate.burst
  {
    GainedIsPositive(rate, b.updated, now);
  }

  /** What a bucket accepts is covered by what it held and what it gained. */
  lemma {:induction false} AcceptedIsCovered(b: Bucket, rate: Rate, times: seq<real>, until: real)
    requires Sane(rate) && 0.0 <= b.tokens && Forward(times, b.updated) && b.updated <= until
    requires forall i :: 0 <= i < |times| ==> times[i] <= until
    ensures Accepted(b, rate, times) as real <= b.tokens + Gained(rate, b.updated, until)
    decreases |times|
  {
    if times == [] {
      GainedIsPositive(rate, b.updated, until);
    } else {
      TakeSpends(b, rate, times[0]);
      var (next, ok) := Take(b, rate, times[0]);
      AcceptedIsCovered(next, rate, times[1..], until);
    }
  }

  lemma {:induction false} AfterIsNonNegative(b: Bucket, rate: Rate, times: seq<real>)
    requires Sane(rate) && 0.0 <= b.tokens && Forward(times, b.updated)
    ensures After(b, rate, times).tokens >= 0.0
    ensures times != [] ==> After(b, rate, times).updated == times[|times| - 1]
    ensures times == [] ==> After(b, rate, times) == b
    decreases |times|
  {
    if times == [] {
    } else {
      TakeSpends(b, rate, times[0]);
      AfterIsNonNegative(Take(b, rate, times[0]).0, rate, times[1..]);
    }
  }

  lemma WindowFrom(b: Bucket, rate: Rate, window: seq<real>, until: real)
    requires Sane(rate) && 0.0 <= b.tokens && window != [] && b.updated <= window[0]
    requires Forward(window, window[0]) && forall k :: 0 <= k < |window| ==> window[k] <= until
    ensures Accepted(b, rate, window) as real <= rate.burst + Gained(rate, window[0], until)
  {
    TakeSpends(b, rate, window[0]);
    AcceptedIsCovered(Refill(b, rate, window[0]), rate, window, until);
  }

  /** The state a window starts from. */
  lemma BeforeWindow(start: real, rate: Rate, times: seq<real>, i: nat)
    requires Sane(rate) && Forward(times, start) && i < |times|
    ensures var b := After(Full(rate, start), rate, times[..i]);
            0.0 <= b.tokens && b.updated <= times[i]
  {
    AfterIsNonNegative(Full(rate, start), rate, times[..i]);
  }

  /** In any window of any run, a bucket accepts at most its burst plus its rate times the window. */
  lemma WindowIsBounded(start: real, rate: Rate, times: seq<real>, i: nat, j: nat)
    requires Sane(rate) && Forward(times, start) && i < j <= |times|
    ensures Accepted(After(Full(rate, start), rate, times[..i]), rate, times[i..j]) as real
         <= rate.burst + Gained(rate, times[i], times[j - 1])
  {
    BeforeWindow(start, rate, times, i);
    WindowFrom(After(Full(rate, start), rate, times[..i]), rate, times[i..j], times[j - 1]);
  }

  // ----- tables of buckets -----

  const CAPACITY := 10_000

  // A table drops, when full, the buckets that have been idle this long.
  datatype Policy = Policy(rate: Rate, idle: real)

  predicate SanePolicy(p: Policy) {
    Sane(p.rate) && p.idle >= 0.0
  }

  datatype Decision = Allowed | Limited | TableFull

  type Table = map<nat, Bucket>

  function Retained(table: Table, policy: Policy, now: real): Table {
    map k | k in table && now - table[k].updated < policy.idle :: table[k]
  }

  function Charge(table: Table, key: nat, policy: Policy, now: real): (Table, Decision) {
    var (b, ok) := Take(BucketFor(table, key, policy, now), policy.rate, now);
    (table[key := b], if ok then Allowed else Limited)
  }

  /** One guarded table: evict if full, refuse if still full, else charge the key's bucket. */
  function Attempt(table: Table, key: nat, policy: Policy, now: real): (Table, Decision) {
    if |table| >= CAPACITY && key !in table then
      var kept := Retained(table, policy, now);
      if |kept| >= CAPACITY then (kept, TableFull) else Charge(kept, key, policy, now)
    else Charge(table, key, policy, now)
  }

  /** Both tables of allow_password_attempt; the account is charged only if the address passes. */
  datatype Gate = Gate(addresses: Table, accounts: Table)

  function Allow(g: Gate, address: nat, account: nat, now: real, a: Policy, u: Policy): (Gate, bool) {
    var (addresses, first) := Attempt(g.addresses, address, a, now);
    if first != Allowed then (g.(addresses := addresses), false)
    else
      var (accounts, second) := Attempt(g.accounts, account, u, now);
      (Gate(addresses, accounts), second == Allowed)
  }

  class PasswordGate {
    var addresses: Table
    var accounts: Table

    function Value(): Gate
      reads this
    {
      Gate(addresses, accounts)
    }

    constructor ()
      ensures Value() == Gate(map[], map[])
    {
      addresses, accounts := map[], map[];
    }

    method AllowPasswordAttempt(address: nat, account: nat, now: real, a: Policy, u: Policy) returns (ok: bool)
      modifies this
      ensures (Value(), ok) == Allow(old(Value()), address, account, now, a, u)
    {
      if |addresses| >= CAPACITY && address !in addresses {
        addresses := Retained(addresses, a, now);
        if |addresses| >= CAPACITY {
          return false;
        }
      }
      var b := if address in addresses then addresses[address] else Full(a.rate, now);
      var (next, passed) := Take(b, a.rate, now);
      addresses := addresses[address := next];
      if !passed {
        return false;
      }
      if |accounts| >= CAPACITY && account !in accounts {
        accounts := Retained(accounts, u, now);
        if |accounts| >= CAPACITY {
          return false;
        }
      }
      var c := if account in accounts then accounts[account] else Full(u.rate, now);
      var (after, allowed) := Take(c, u.rate, now);
      accounts := accounts[account := after];
      ok := allowed;
    }
  }

  lemma AttemptKeepsBound(table: Table, key: nat, policy: Policy, now: real)
    requires |table| <= CAPACITY
    ensures |Attempt(table, key, policy, now).0| <= CAPACITY
  {
    var kept := Retained(table, policy, now);
    Smaller(kept.Keys, table.Keys);
  }

  function TableAfter(table: Table, policy: Policy, tries: seq<(nat, real)>): Table
    decreases |tries|
  {
    if tries == [] then table
    else TableAfter(Attempt(table, tries[0].0, policy, tries[0].1).0, policy, tries[1..])
  }

  lemma {:induction false} BoundIsKept(table: Table, policy: Policy, tries: seq<(nat, real)>)
    requires |table| <= CAPACITY
    ensures |TableAfter(table, policy, tries)| <= CAPACITY
    decreases |tries|
  {
    if tries == [] {
    } else {
      AttemptKeepsBound(table, tries[0].0, policy, tries[0].1);
      BoundIsKept(Attempt(table, tries[0].0, policy, tries[0].1).0, policy, tries[1..]);
    }
  }

  /** A table that starts empty never holds more than its capacity, whatever is attempted. */
  lemma TableIsBounded(policy: Policy, tries: seq<(nat, real)>)
    ensures |TableAfter(map[], policy, tries)| <= CAPACITY
  {
    BoundIsKept(map[], policy, tries);
  }

  // ----- eviction -----

  lemma Refills(b: Bucket, policy: Policy, now: real)
    requires SanePolicy(policy) && policy.rate.perSecond * policy.idle >= policy.rate.burst
    requires b.tokens >= 0.0 && now - b.updated >= policy.idle
    ensures Refill(b, policy.rate, now) == Full(policy.rate, now)
  {
    IdleGains(policy, b.updated, now);
  }

  lemma IdleGains(policy: Policy, from: real, now: real)
    requires SanePolicy(policy) && now - from >= policy.idle
    ensures Gained(policy.rate, from, now) >= policy.rate.perSecond * policy.idle
  {
    GainedIsPositive(policy.rate, from + policy.idle, now);
  }

  /** The table that is never evicted agrees with the real one: a missing bucket would be full. */
  ghost predicate Agrees(table: Table, ideal: Table, policy: Policy, now: real) {
    && (forall k :: k in table ==> k in ideal && table[k] == ideal[k])
    && (forall k :: k in ideal ==> ideal[k].tokens >= 0.0 && ideal[k].updated <= now)
    && (forall k :: k in ideal && k !in table ==> now - ideal[k].updated >= policy.idle)
  }

  /** The bucket a key is charged with: the one kept, or a full one in its place. */
  function BucketFor(table: Table, key: nat, policy: Policy, now: real): Bucket {
    if key in table then table[key] else Full(policy.rate, now)
  }

  lemma SameBucket(table: Table, ideal: Table, key: nat, policy: Policy, now: real)
    requires SanePolicy(policy) && policy.rate.perSecond * policy.idle >= policy.rate.burst
    requires Agrees(table, ideal, policy, now)
    ensures Take(BucketFor(table, key, policy, now), policy.rate, now)
         == Take(BucketFor(ideal, key, policy, now), policy.rate, now)
    ensures Take(BucketFor(ideal, key, policy, now), policy.rate, now).0.tokens >= 0.0
    ensures Take(BucketFor(ideal, key, policy, now), policy.rate, now).0.updated == now
  {
    var b := BucketFor(ideal, key, policy, now);
    TakeSpends(b, policy.rate, now);
    if key in ideal && key !in table {
      Refills(b, policy, now);
    }
  }

  lemma ChargeAgrees(table: Table, ideal: Table, key: nat, policy: Policy, now: real)
    requires SanePolicy(policy) && policy.rate.perSecond * policy.idle >= policy.rate.burst
    requires Agrees(table, ideal, policy, now)
    ensures Charge(table, key, policy, now).1 == Charge(ideal, key, policy, now).1
    ensures Agrees(Charge(table, key, policy, now).0, Charge(ideal, key, policy, now).0, policy, now)
  {
    SameBucket(table, ideal, key, policy, now);
  }

  /** Decisions of a run of attempts on one table, from `table` on. */
  function Decisions(table: Table, policy: Policy, tries: seq<(nat, real)>): seq<Decision>
    decreases |tries|
  {
    if tries == [] then []
    else
      var (next, d) := Attempt(table, tries[0].0, policy, tries[0].1);
      [d] + Decisions(next, policy, tries[1..])
  }

  /** The same attempts on a table without capacity; those the real one had no room for are left out. */
  function IdealDecisions(ideal: Table, policy: Policy, tries: seq<(nat, real)>, full: seq<bool>): seq<Decision>
    requires |full| == |tries|
    decreases |tries|
  {
    if tries == [] then []
    else if full[0] then [TableFull] + IdealDecisions(ideal, policy, tries[1..], full[1..])
    else
      var (next, d) := Charge(ideal, tries[0].0, policy, tries[0].1);
      [d] + IdealDecisions(next, policy, tries[1..], full[1..])
  }

  function Refusals(decisions: seq<Decision>): (full: seq<bool>)
    ensures |full| == |decisions| && forall i :: 0 <= i < |full| ==> full[i] == (decisions[i] == TableFull)
  {
    if decisions == [] then [] else [decisions[0] == TableFull] + Refusals(decisions[1..])
  }

  lemma {:induction false} OneEach(table: Table, policy: Policy, tries: seq<(nat, real)>)
    ensures |Decisions(table, policy, tries)| == |tries|
    decreases |tries|
  {
    if tries == [] {
    } else {
      OneEach(Attempt(table, tries[0].0, policy, tries[0].1).0, policy, tries[1..]);
    }
  }

  /**
   Eviction changes no decision: over any run, the guarded table decides as one that keeps every
   bucket forever, apart from the attempts it refuses for lack of room.
   */
  lemma {:induction false} EvictionChangesNoDecision(
    table: Table, ideal: Table, policy: Policy, tries: seq<(nat, real)>, now: real)
    requires SanePolicy(policy) && policy.rate.perSecond * policy.idle >= policy.rate.burst
    requires Agrees(table, ideal, policy, now)
    requires forall i :: 0 <= i < |tries| ==> now <= tries[i].1
    requires forall i, j :: 0 <= i < j < |tries| ==> tries[i].1 <= tries[j].1
    ensures |Decisions(table, policy, tries)| == |tries|
    ensures Decisions(table, policy, tries)
         == IdealDecisions(ideal, policy, tries, Refusals(Decisions(table, policy, tries)))
    decreases |tries|
  {
    OneEach(table, policy, tries);
    if tries == [] {
    } else {
      var (key, at) := tries[0];
      var (next, d) := Attempt(table, key, policy, at);
      var kept := Retained(table, policy, at);
      ChargeAgrees(table, ideal, key, policy, at);
      ChargeAgrees(kept, ideal, key, policy, at);
      var idealNext := if d == TableFull then ideal else Charge(ideal, key, policy, at).0;
      EvictionChangesNoDecision(next, idealNext, policy, tries[1..], at);
      var full := Refusals(Decisions(table, policy, tries));
      OneEach(next, policy, tries[1..]);
      assert full[1..] == Refusals(Decisions(next, policy, tries[1..]));
    }
  }

  // Default configuration: 10 a minute with burst 5 per address, 30 an hour with burst 10 per account.
  const ADDRESS_POLICY := Policy(Rate(10.0 / 60.0, 5.0), 600.0)
  const ACCOUNT_POLICY := Policy(Rate(30.0 / 3600.0, 10.0), 3600.0)

  lemma DefaultsRefill()
    ensures SanePolicy(ADDRESS_POLICY) && SanePolicy(ACCOUNT_POLICY)
    ensures ADDRESS_POLICY.rate.perSecond * ADDRESS_POLICY.idle >= ADDRESS_POLICY.rate.burst
    ensures ACCOUNT_POLICY.rate.perSecond * ACCOUNT_POLICY.idle >= ACCOUNT_POLICY.rate.burst
  {
  }
}
