/** Password attempts over runs: what one address and one account can get through. */
module LimiterGate {
  import opened Limiter

  // One password attempt: where it comes from, for which account, and when.
  datatype Try = Try(address: nat, account: nat, at: real)

  predicate Refilling(p: Policy) {
    SanePolicy(p) && p.rate.perSecond * p.idle >= p.rate.burst
  }

  /** The tokens that a key has at a given time; a key without a bucket has a full one. */
  function Tokens(table: Table, key: nat, p: Policy, now: real): real {
    if key in table then Refill(table[key], p.rate, now).tokens else p.rate.burst
  }

  /** Every bucket holds something and was used before. */
  ghost predicate Used(table: Table, p: Policy, now: real) {
    forall k :: k in table ==> table[k].tokens >= 0.0 && table[k].updated <= now
  }

  // ----- one table -----

  lemma TokensGrow(table: Table, key: nat, p: Policy, now: real, later: real)
    requires Refilling(p) && Used(table, p, now) && now <= later
    ensures 0.0 <= Tokens(table, key, p, later) <= p.rate.burst
    ensures Tokens(table, key, p, later) <= Tokens(table, key, p, now) + p.rate.perSecond * (later - now)
  {
    if key in table {
      GainedIsPositive(p.rate, table[key].updated, now);
      GainedIsPositive(p.rate, now, later);
      GainedAdds(p.rate, table[key].updated, now, later);
    } else {
      GainedIsPositive(p.rate, now, later);
    }
  }

  lemma EvictionKeepsTokens(table: Table, key: nat, p: Policy, now: real)
    requires Refilling(p) && Used(table, p, now)
    ensures Tokens(Retained(table, p, now), key, p, now) == Tokens(table, key, p, now)
    ensures Used(Retained(table, p, now), p, now)
  {
    if key in table && now - table[key].updated >= p.idle {
      Refills(table[key], p, now);
    }
  }

  /** A charge costs the charged key one token, and no other key anything. */
  lemma ChargeCosts(table: Table, charged: nat, key: nat, p: Policy, now: real)
    requires Refilling(p) && Used(table, p, now)
    ensures var (s, d) := Charge(table, charged, p, now);
            && Used(s, p, now)
            && Tokens(s, key, p, now) == Tokens(table, key, p, now) - (if key == charged && d == Allowed then 1.0 else 0.0)
            && (d == Allowed <==> Tokens(table, charged, p, now) >= 1.0)
  {
    var b := BucketFor(table, charged, p, now);
    TakeSpends(b, p.rate, now);
    if charged !in table {
      assert Refill(Full(p.rate, now), p.rate, now).tokens == p.rate.burst by {
        GainedIsPositive(p.rate, now, now);
      }
    }
    var next := Take(b, p.rate, now).0;
    assert Refill(next, p.rate, now).tokens == next.tokens by {
      assert Gained(p.rate, now, now) == 0.0;
    }
  }

  lemma AttemptCosts(table: Table, tried: nat, key: nat, p: Policy, now: real)
    requires Refilling(p) && Used(table, p, now)
    ensures var (s, d) := Attempt(table, tried, p, now);
            && Used(s, p, now)
            && Tokens(s, key, p, now) == Tokens(table, key, p, now) - (if key == tried && d == Allowed then 1.0 else 0.0)
            && (d == Allowed ==> Tokens(table, tried, p, now) >= 1.0)
  {
    var kept := Retained(table, p, now);
    EvictionKeepsTokens(table, key, p, now);
    EvictionKeepsTokens(table, tried, p, now);
    ChargeCosts(table, tried, key, p, now);
    ChargeCosts(kept, tried, key, p, now);
  }

  // ----- both tables -----

  /** Attempts that get through, for one account. */
  function PassedFor(g: Gate, tries: seq<Try>, account: nat, a: Policy, u: Policy): nat
    decreases |tries|
  {
    if tries == [] then 0
    else
      var (next, ok) := Allow(g, tries[0].address, tries[0].account, tries[0].at, a, u);
      (if ok && tries[0].account == account then 1 else 0) + PassedFor(next, tries[1..], account, a, u)
  }

  /** Attempts that get through, from one address. */
  function PassedFrom(g: Gate, tries: seq<Try>, address: nat, a: Policy, u: Policy): nat
    decreases |tries|
  {
    if tries == [] then 0
    else
      var (next, ok) := Allow(g, tries[0].address, tries[0].account, tries[0].at, a, u);
      (if ok && tries[0].address == address then 1 else 0) + PassedFrom(next, tries[1..], address, a, u)
  }

  ghost predicate InTime(tries: seq<Try>, from: real, until: real) {
    && (forall i :: 0 <= i < |tries| ==> from <= tries[i].at <= until)
    && (forall i, j :: 0 <= i < j < |tries| ==> tries[i].at <= tries[j].at)
  }

  lemma LaterIsUsed(table: Table, p: Policy, now: real, later: real)
    requires Used(table, p, now) && now <= later
    ensures Used(table, p, later)
  {
  }

  /** An attempt that gets through is paid for by its account's and its address's tokens. */
  lemma AllowCosts(g: Gate, t: Try, a: Policy, u: Policy, account: nat, address: nat)
    requires Refilling(a) && Refilling(u) && Used(g.addresses, a, t.at) && Used(g.accounts, u, t.at)
    ensures var (s, ok) := Allow(g, t.address, t.account, t.at, a, u);
            && Used(s.addresses, a, t.at) && Used(s.accounts, u, t.at)
            && Tokens(s.accounts, account, u, t.at) + (if ok && t.account == account then 1.0 else 0.0)
               <= Tokens(g.accounts, account, u, t.at)
            && Tokens(s.addresses, address, a, t.at) + (if ok && t.address == address then 1.0 else 0.0)
               <= Tokens(g.addresses, address, a, t.at)
  {
    AttemptCosts(g.addresses, t.address, address, a, t.at);
    AttemptCosts(g.accounts, t.account, account, u, t.at);
  }

  lemma {:induction false} AccountPays(g: Gate, tries: seq<Try>, account: nat, a: Policy, u: Policy, from: real, until: real)
    requires Refilling(a) && Refilling(u) && Used(g.addresses, a, from) && Used(g.accounts, u, from)
    requires InTime(tries, from, until) && from <= until
    ensures PassedFor(g, tries, account, a, u) as real
         <= Tokens(g.accounts, account, u, from) + u.rate.perSecond * (until - from)
    decreases |tries|
  {
    if tries == [] {
      TokensGrow(g.accounts, account, u, from, until);
      GainedIsPositive(u.rate, from, until);
      TokensGrow(g.accounts, account, u, from, from);
    } else {
      var at := tries[0].at;
      LaterIsUsed(g.addresses, a, from, at);
      LaterIsUsed(g.accounts, u, from, at);
      TokensGrow(g.accounts, account, u, from, at);
      AllowCosts(g, tries[0], a, u, account, tries[0].address);
      var next := Allow(g, tries[0].address, tries[0].account, at, a, u).0;
      AccountPays(next, tries[1..], account, a, u, at, until);
      Split(u.rate.perSecond, from, at, until);
    }
  }

  lemma Split(perSecond: real, from: real, at: real, until: real)
    ensures perSecond * (at - from) + perSecond * (until - at) == perSecond * (until - from)
  {
  }

  lemma {:induction false} AddressPays(g: Gate, tries: seq<Try>, address: nat, a: Policy, u: Policy, from: real, until: real)
    requires Refilling(a) && Refilling(u) && Used(g.addresses, a, from) && Used(g.accounts, u, from)
    requires InTime(tries, from, until) && from <= until
    ensures PassedFrom(g, tries, address, a, u) as real
         <= Tokens(g.addresses, address, a, from) + a.rate.perSecond * (until - from)
    decreases |tries|
  {
    if tries == [] {
      GainedIsPositive(a.rate, from, until);
      TokensGrow(g.addresses, address, a, from, from);
    } else {
      var at := tries[0].at;
      LaterIsUsed(g.addresses, a, from, at);
      LaterIsUsed(g.accounts, u, from, at);
      TokensGrow(g.addresses, address, a, from, at);
      AllowCosts(g, tries[0], a, u, tries[0].account, address);
      var next := Allow(g, tries[0].address, tries[0].account, at, a, u).0;
      AddressPays(next, tries[1..], address, a, u, at, until);
      Split(a.rate.perSecond, from, at, until);
    }
  }

  /**
   However attempts are spread over addresses and accounts, and whatever is evicted: in any period an
   account gets through at most its burst plus its rate times the period, and so does an address.
   */
  lemma AttemptsAreBounded(tries: seq<Try>, account: nat, address: nat, a: Policy, u: Policy, from: real, until: real)
    requires Refilling(a) && Refilling(u) && InTime(tries, from, until) && from <= until
    ensures PassedFor(Gate(map[], map[]), tries, account, a, u) as real
         <= u.rate.burst + u.rate.perSecond * (until - from)
    ensures PassedFrom(Gate(map[], map[]), tries, address, a, u) as real
         <= a.rate.burst + a.rate.perSecond * (until - from)
  {
    AccountPays(Gate(map[], map[]), tries, account, a, u, from, until);
    AddressPays(Gate(map[], map[]), tries, address, a, u, from, until);
  }

  /** With room in both tables an attempt gets through exactly when address and account have a token each. */
  lemma AllowsExactly(g: Gate, t: Try, a: Policy, u: Policy)
    requires Refilling(a) && Refilling(u) && Used(g.addresses, a, t.at) && Used(g.accounts, u, t.at)
    requires |g.addresses| < 10000 && |g.accounts| < 10000
    ensures Allow(g, t.address, t.account, t.at, a, u).1
       <==> Tokens(g.addresses, t.address, a, t.at) >= 1.0 && Tokens(g.accounts, t.account, u, t.at) >= 1.0
  {
    ChargeCosts(g.addresses, t.address, t.address, a, t.at);
    ChargeCosts(g.accounts, t.account, t.account, u, t.at);
  }
}
