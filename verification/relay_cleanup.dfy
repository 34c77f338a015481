/**
 Retention cleanup: what one bounded batch removes, and that batches repeated until one is short
 amount to a single unbounded cleanup.
 */
module RelayCleanup {
  import opened Ids
  import opened Sums
  import opened RelayTables
  import opened RelayIntegrity

  datatype CleanupStats = CleanupStats(envelopes: nat, bytes: nat, logical: nat, updates: nat)

  const NOTHING := CleanupStats(0, 0, 0, 0)

  function Plus(a: CleanupStats, b: CleanupStats): CleanupStats {
    CleanupStats(a.envelopes + b.envelopes, a.bytes + b.bytes, a.logical + b.logical, a.updates + b.updates)
  }

  /** `stats` is what disappeared between two states. */
  ghost predicate Accounts(before: Tables, after: Tables, stats: CleanupStats) {
    && |before.rows| == |after.rows| + stats.envelopes
    && Bytes(before.rows) == Bytes(after.rows) + stats.bytes
    && |before.logical| == |after.logical| + stats.logical
    && |before.updates| == |after.updates| + stats.updates
  }

  /** A cleanup without a batch limit. */
  function CleanupAll(t: Tables, cutoff: int): Tables {
    PurgeOrphans(DeleteRows(t, Cursors(ExpiredRows(t.rows, cutoff))))
  }

  // ----- rows -----

  lemma {:induction false} WithoutMerges(rows: seq<Row>, a: set<nat>, b: set<nat>)
    ensures Without(Without(rows, a), b) == Without(rows, a + b)
  {
    if rows == [] {
    } else {
      WithoutMerges(rows[1..], a, b);
      var kept := Without(rows[1..], a);
      if rows[0].cursor !in a {
        assert Without(rows, a) == [rows[0]] + kept;
        assert ([rows[0]] + kept)[1..] == kept;
      } else {
        assert Without(rows, a) == kept;
      }
    }
  }

  lemma {:induction false} WithoutIrrelevant(rows: seq<Row>, a: set<nat>, b: set<nat>)
    requires forall r :: r in rows ==> (r.cursor in a <==> r.cursor in b)
    ensures Without(rows, a) == Without(rows, b)
  {
    if rows == [] {
    } else {
      WithoutIrrelevant(rows[1..], a, b);
    }
  }

  /** The rows left when the first n expired ones go. */
  function Skip(rows: seq<Row>, cutoff: int, n: nat): seq<Row> {
    if rows == [] then []
    else if Expired(rows[0], cutoff) && n > 0 then Skip(rows[1..], cutoff, n - 1)
    else [rows[0]] + Skip(rows[1..], cutoff, n)
  }

  function Drop<T>(s: seq<T>, n: nat): seq<T> {
    if |s| <= n then [] else s[n..]
  }

  lemma TakeCons(r: Row, later: seq<Row>, n: nat)
    requires n > 0
    ensures Take([r] + later, n) == [r] + Take(later, n - 1)
    ensures Drop([r] + later, n) == Drop(later, n - 1)
    ensures Bytes([r] + Take(later, n - 1)) == |r.wire.ciphertext| + Bytes(Take(later, n - 1))
  {
    assert ([r] + Take(later, n - 1))[1..] == Take(later, n - 1);
  }

  lemma ConsParts(r: Row, rest: seq<Row>, cutoff: int)
    ensures Bytes([r] + rest) == |r.wire.ciphertext| + Bytes(rest)
    ensures ExpiredRows([r] + rest, cutoff) == (if Expired(r, cutoff) then [r] else []) + ExpiredRows(rest, cutoff)
  {
    assert ([r] + rest)[1..] == rest;
  }

  lemma {:induction false} SkipLeaves(rows: seq<Row>, cutoff: int, n: nat)
    ensures var kept := Skip(rows, cutoff, n);
            var all := ExpiredRows(rows, cutoff);
            && ExpiredRows(kept, cutoff) == Drop(all, n)
            && |rows| == |kept| + |Take(all, n)|
            && Bytes(rows) == Bytes(kept) + Bytes(Take(all, n))
  {
    if rows == [] {
    } else {
      var r, rest := rows[0], rows[1..];
      var later := ExpiredRows(rest, cutoff);
      if Expired(r, cutoff) && n > 0 {
        SkipLeaves(rest, cutoff, n - 1);
        TakeCons(r, later, n);
      } else {
        SkipLeaves(rest, cutoff, n);
        ConsParts(r, Skip(rest, cutoff, n), cutoff);
        assert n > 0 ==> ExpiredRows(rows, cutoff) == later;
      }
    }
  }

  lemma CursorsCons(r: Row, rows: seq<Row>)
    ensures Cursors([r] + rows) == {r.cursor} + Cursors(rows)
  {
    assert forall q :: q in [r] + rows <==> q == r || q in rows;
  }

  lemma TakeIsPart(rows: seq<Row>, n: nat)
    ensures forall q :: q in Take(rows, n) ==> q in rows
  {
  }

  lemma HeadIsKept(r: Row, rest: seq<Row>, cutoff: int, n: nat)
    requires forall q :: q in rest ==> q.cursor > r.cursor
    ensures r.cursor !in Cursors(Take(ExpiredRows(rest, cutoff), n))
  {
    TakeIsPart(ExpiredRows(rest, cutoff), n);
  }

  lemma HeadIsDropped(r: Row, rest: seq<Row>, batch: seq<Row>)
    requires forall q :: q in rest ==> q.cursor > r.cursor
    ensures Without([r] + rest, Cursors([r] + batch)) == Without(rest, Cursors(batch))
  {
    CursorsCons(r, batch);
    assert ([r] + rest)[1..] == rest;
    WithoutIrrelevant(rest, {r.cursor} + Cursors(batch), Cursors(batch));
  }

  /** Deleting the first n expired cursors is skipping the first n expired rows. */
  lemma {:induction false} BatchSkips(rows: seq<Row>, cutoff: int, n: nat)
    requires Sorted(rows)
    ensures Without(rows, Cursors(Take(ExpiredRows(rows, cutoff), n))) == Skip(rows, cutoff, n)
  {
    if rows == [] {
    } else {
      TailSorted(rows);
      var r, rest := rows[0], rows[1..];
      var later := ExpiredRows(rest, cutoff);
      assert rows == [r] + rest;
      if Expired(r, cutoff) && n > 0 {
        BatchSkips(rest, cutoff, n - 1);
        TakeCons(r, later, n);
        HeadIsDropped(r, rest, Take(later, n - 1));
      } else {
        BatchSkips(rest, cutoff, n);
        assert Take(ExpiredRows(rows, cutoff), n) == Take(later, n);
        HeadIsKept(r, rest, cutoff, n);
      }
    }
  }

  // ----- updates and logical messages -----

  lemma {:induction false} KeepUpdatesNarrows(updates: seq<Update>, wide: set<LogicalId>, narrow: set<LogicalId>)
    requires narrow <= wide
    ensures KeepUpdates(KeepUpdates(updates, wide), narrow) == KeepUpdates(updates, narrow)
  {
    if updates == [] {
    } else {
      KeepUpdatesNarrows(updates[1..], wide, narrow);
      var kept := KeepUpdates(updates[1..], wide);
      if updates[0].logicalId in wide {
        assert KeepUpdates(updates, wide) == [updates[0]] + kept;
        assert ([updates[0]] + kept)[1..] == kept;
      } else {
        assert KeepUpdates(updates, wide) == kept;
      }
    }
  }

  lemma {:induction false} KeepUpdatesLength(updates: seq<Update>, ids: set<LogicalId>)
    ensures |KeepUpdates(updates, ids)| <= |updates|
  {
    if updates == [] {
    } else {
      KeepUpdatesLength(updates[1..], ids);
    }
  }

  lemma PurgedFields(t: Tables, drop: set<nat>)
    requires UsageExact(t)
    ensures var s := PurgeOrphans(DeleteRows(t, drop));
            var live := LiveIds(Without(t.rows, drop));
            && s == t.(rows := Without(t.rows, drop), usage := s.usage, logical := s.logical,
                       updates := KeepUpdates(t.updates, live))
            && UsageExact(s) && s.usage.Keys == t.usage.Keys
            && s.logical == map id | id in t.logical && id in live :: t.logical[id]
  {
    DeleteKeepsUsage(t, drop);
  }

  lemma PurgedTwice(t: Tables, a: set<nat>, b: set<nat>, whole: set<nat>)
    requires UsageExact(t)
    requires Without(Without(t.rows, a), b) == Without(t.rows, whole)
    ensures PurgeOrphans(DeleteRows(PurgeOrphans(DeleteRows(t, a)), b)) == PurgeOrphans(DeleteRows(t, whole))
  {
    var s := PurgeOrphans(DeleteRows(t, a));
    PurgedFields(t, a);
    PurgedFields(s, b);
    PurgedFields(t, whole);
    var wide, narrow := LiveIds(Without(t.rows, a)), LiveIds(Without(t.rows, whole));
    KeepUpdatesNarrows(t.updates, wide, narrow);
  }

  // ----- the batched loop -----

  function Removed(t: Tables, cutoff: int, limit: nat): seq<Row> {
    Take(ExpiredRows(t.rows, cutoff), Clamp(limit, 1, 10_000))
  }

  /** A batch reports exactly what disappeared, and only expired rows disappear. */
  lemma BatchAccounts(t: Tables, cutoff: int, limit: nat)
    requires Inv(t)
    ensures var s := CleanupDelivered(t, cutoff, limit);
            var removed := Removed(t, cutoff, limit);
            && |s.logical| <= |t.logical| && |s.updates| <= |t.updates|
            && Accounts(t, s, CleanupStats(|removed|, Bytes(removed), |t.logical| - |s.logical|, |t.updates| - |s.updates|))
            && (forall r :: r in t.rows && r !in s.rows ==> Expired(r, cutoff))
            && (forall r :: r in s.rows ==> r in t.rows)
  {
    var s, removed := CleanupDelivered(t, cutoff, limit), Removed(t, cutoff, limit);
    PurgedFields(t, Cursors(removed));
    BatchSkips(t.rows, cutoff, Clamp(limit, 1, 10_000));
    SkipLeaves(t.rows, cutoff, Clamp(limit, 1, 10_000));
    KeepUpdatesLength(t.updates, LiveIds(s.rows));
    Smaller(s.logical.Keys, t.logical.Keys);
    assert |s.logical| == |s.logical.Keys| && |t.logical| == |t.logical.Keys|;
    forall r | r in t.rows && r !in s.rows ensures Expired(r, cutoff) {
      assert r.cursor in Cursors(removed);
      var q :| q in removed && q.cursor == r.cursor;
      SameCursorSameRow(t.rows, q, r);
    }
  }

  /** One batch followed by an unbounded cleanup is an unbounded cleanup. */
  lemma BatchThenAll(t: Tables, cutoff: int, limit: nat)
    requires Inv(t)
    ensures CleanupAll(CleanupDelivered(t, cutoff, limit), cutoff) == CleanupAll(t, cutoff)
    ensures |Removed(t, cutoff, limit)| < Clamp(limit, 1, 10_000) ==>
      CleanupDelivered(t, cutoff, limit) == CleanupAll(t, cutoff)
  {
    var n := Clamp(limit, 1, 10_000);
    var all := ExpiredRows(t.rows, cutoff);
    var first := Take(all, n);
    var rest := Drop(all, n);
    BatchSkips(t.rows, cutoff, n);
    SkipLeaves(t.rows, cutoff, n);
    WithoutMerges(t.rows, Cursors(first), Cursors(rest));
    assert Cursors(first) + Cursors(rest) == Cursors(all);
    PurgedTwice(t, Cursors(first), Cursors(rest), Cursors(all));
  }

  /** An unbounded cleanup leaves exactly the rows that were not delivered before the cutoff. */
  lemma CleanupAllKeepsTheRest(t: Tables, cutoff: int)
    requires Inv(t)
    ensures forall r :: r in CleanupAll(t, cutoff).rows <==> r in t.rows && !Expired(r, cutoff)
  {
    forall r | r in t.rows ensures r.cursor in Cursors(ExpiredRows(t.rows, cutoff)) <==> Expired(r, cutoff) {
      if r.cursor in Cursors(ExpiredRows(t.rows, cutoff)) {
        var q :| q in ExpiredRows(t.rows, cutoff) && q.cursor == r.cursor;
        SameCursorSameRow(t.rows, q, r);
      }
    }
  }
}
