/** What revocation, reset, retention and pruning remove, read off the tables themselves. */
module RelayRemovals {
  import opened Ids
  import opened RelayTables
  import opened RelayIntegrity
  import Cleanup = RelayCleanup
  import Roster = RelayRoster
  import Runs = RelayRun

  /** Messages and updates are exactly those that still have an envelope. */
  ghost predicate OnlyReferred(t: Tables, s: Tables) {
    && (forall id :: id in s.logical <==> id in t.logical && exists r :: r in s.rows && r.wire.logicalId == id)
    && (forall id :: id in s.logical ==> s.logical[id] == t.logical[id])
    && (forall u :: u in s.updates <==> u in t.updates && exists r :: r in s.rows && r.wire.logicalId == u.logicalId)
  }

  lemma PurgeLeavesReferred(t: Tables, drop: set<nat>)
    ensures OnlyReferred(t, PurgeOrphans(DeleteRows(t, drop)))
  {
    var s := PurgeOrphans(DeleteRows(t, drop));
    forall id: LogicalId ensures id in LiveIds(s.rows) <==> exists r :: r in s.rows && r.wire.logicalId == id {
    }
  }

  // ----- revocation -----

  /** The queue and the one-time keys of a device are gone, and those of all others are there. */
  ghost predicate Emptied(t: Tables, s: Tables, device: DeviceId) {
    && (forall r :: r in s.rows <==> r in t.rows && r.wire.recipientDevice != device)
    && (forall k :: k in s.prekeys <==> k in t.prekeys && k.device != device)
    && OnlyReferred(t, s)
    && s == t.(rows := s.rows, prekeys := s.prekeys, logical := s.logical, updates := s.updates, usage := s.usage)
  }

  lemma CleanupEmptiesExactly(t: Tables, device: DeviceId)
    requires Sorted(t.rows)
    ensures Emptied(t, CleanupRevoked(t, device), device)
  {
    var drop := set r | r in t.rows && r.wire.recipientDevice == device :: r.cursor;
    forall r | r in t.rows ensures r.cursor in drop <==> r.wire.recipientDevice == device {
      if r.cursor in drop {
        var q :| q in t.rows && q.wire.recipientDevice == device && q.cursor == r.cursor;
        SameCursorSameRow(t.rows, r, q);
      }
    }
    PurgeLeavesReferred(t, drop);
  }

  /** Revoking a device of the account marks just that device, and empties its queue and keys. */
  lemma RevokesExactly(t: Tables, op: Roster.RosterOp)
    requires Sorted(t.rows) && (op.RevokeOwn? || op.RevokeByAdmin?)
    requires op.device in t.devices && t.devices[op.device].account == op.account && !t.devices[op.device].revoked
    ensures var s := Runs.Apply(t, Runs.Membership(op));
            && s.devices == t.devices[op.device := t.devices[op.device].(revoked := true)]
            && Emptied(t.(devices := s.devices), s, op.device)
  {
    var marked := SetRevoked(t, {op.device});
    assert marked.devices == t.devices[op.device := t.devices[op.device].(revoked := true)];
    CleanupEmptiesExactly(marked, op.device);
  }

  /** A device of another account, or one that is not there, cannot be revoked. */
  lemma StrangersStay(t: Tables, op: Roster.RosterOp)
    requires op.RevokeOwn? || op.RevokeByAdmin?
    requires op.device in t.devices ==> t.devices[op.device].account != op.account
    ensures Runs.Apply(t, Runs.Membership(op)) == t
  {
  }

  /** A reset revokes every device of the account, drops their keys, and forgets master key and revision. */
  lemma ResetsExactly(t: Tables, a: AccountId)
    requires a in t.accounts
    ensures var s := Runs.Apply(t, Runs.Membership(Roster.Reset(a)));
            && s.accounts == t.accounts[a := Account(t.accounts[a].active, None, 0)]
            && s.devices.Keys == t.devices.Keys
            && (forall d :: d in t.devices ==>
                  s.devices[d] == if t.devices[d].account == a then t.devices[d].(revoked := true) else t.devices[d])
            && (forall k :: k in s.prekeys <==>
                  k in t.prekeys && !(k.device in t.devices && t.devices[k.device].account == a))
            && s == t.(accounts := s.accounts, devices := s.devices, prekeys := s.prekeys)
  {
  }

  // ----- retention -----

  predicate Old(r: Row, cutoff: int) {
    match r.deliveredAt
    case None => false
    case Some(at) => at < cutoff
  }

  /** How many envelopes one cleanup may remove. */
  function BatchSize(limit: nat): nat {
    if limit < 1 then 1 else if limit > 10000 then 10000 else limit
  }

  lemma {:induction false} ExpiredAscend(rows: seq<Row>, cutoff: int)
    requires Sorted(rows)
    ensures Sorted(ExpiredRows(rows, cutoff))
  {
    if rows == [] {
    } else {
      TailSorted(rows);
      ExpiredAscend(rows[1..], cutoff);
    }
  }

  lemma OldestFirst(t: Tables, all: seq<Row>, n: nat, r: Row, q: Row)
    requires Sorted(t.rows) && Sorted(all) && r in t.rows && q in t.rows && r in all
    requires r.cursor !in Cursors(Take(all, n)) && q.cursor in Cursors(Take(all, n))
    ensures q.cursor < r.cursor
  {
    var first := Take(all, n);
    var i :| 0 <= i < |all| && all[i] == r;
    var p :| p in first && p.cursor == q.cursor;
    var j :| 0 <= j < |first| && first[j] == p;
    assert forall k :: 0 <= k < |first| ==> first[k] in first && first[k] == all[k];
    assert all[j] == p;
  }

  /** The rows that a cleanup selects. */
  function Selected(t: Tables, cutoff: int, limit: nat): seq<Row> {
    Take(ExpiredRows(t.rows, cutoff), BatchSize(limit))
  }

  lemma RetiredAre(t: Tables, cutoff: int, limit: nat)
    requires Sorted(t.rows)
    ensures var s, gone := CleanupDelivered(t, cutoff, limit), Cursors(Selected(t, cutoff, limit));
            && s.rows == Without(t.rows, gone) && OnlyReferred(t, s)
            && s == t.(rows := s.rows, logical := s.logical, updates := s.updates, usage := s.usage)
            && (forall r :: r in t.rows && r.cursor in gone ==> Old(r, cutoff))
  {
    var selected := Selected(t, cutoff, limit);
    PurgeLeavesReferred(t, Cursors(selected));
    forall r | r in t.rows && r.cursor in Cursors(selected) ensures Old(r, cutoff) {
      var q :| q in selected && q.cursor == r.cursor;
      SameCursorSameRow(t.rows, q, r);
    }
  }

  /** The first expired rows go; the others stay. */
  lemma OldestGo(t: Tables, cutoff: int, limit: nat)
    requires Sorted(t.rows)
    ensures var s := CleanupDelivered(t, cutoff, limit);
            forall r, q :: r in s.rows && Old(r, cutoff) && q in t.rows && q !in s.rows ==> q.cursor < r.cursor
  {
    var s := CleanupDelivered(t, cutoff, limit);
    RetiredAre(t, cutoff, limit);
    ExpiredAscend(t.rows, cutoff);
    forall r, q | r in s.rows && Old(r, cutoff) && q in t.rows && q !in s.rows ensures q.cursor < r.cursor {
      OldestFirst(t, ExpiredRows(t.rows, cutoff), BatchSize(limit), r, q);
    }
  }

  lemma HowManyGo(t: Tables, cutoff: int, limit: nat)
    requires Sorted(t.rows)
    ensures var s := CleanupDelivered(t, cutoff, limit);
            && |t.rows| - |s.rows| <= BatchSize(limit)
            && (|t.rows| - |s.rows| < BatchSize(limit) ==> forall r :: r in s.rows ==> !Old(r, cutoff))
  {
    var n, s := BatchSize(limit), CleanupDelivered(t, cutoff, limit);
    RetiredAre(t, cutoff, limit);
    Cleanup.BatchSkips(t.rows, cutoff, n);
    Cleanup.SkipLeaves(t.rows, cutoff, n);
    if |t.rows| - |s.rows| < n {
      assert ExpiredRows(s.rows, cutoff) == [];
    }
  }

  /**
   A cleanup removes envelopes delivered before the cutoff, the oldest first, as many as allowed, and
   fewer only when no more are left.
   */
  lemma RetiresExactly(t: Tables, cutoff: int, limit: nat)
    requires Sorted(t.rows)
    ensures var s := CleanupDelivered(t, cutoff, limit);
            && (forall r :: r in s.rows ==> r in t.rows)
            && (forall r :: r in t.rows && r !in s.rows ==> Old(r, cutoff))
            && (forall r, q :: r in s.rows && Old(r, cutoff) && q in t.rows && q !in s.rows ==> q.cursor < r.cursor)
            && |t.rows| - |s.rows| <= BatchSize(limit)
            && (|t.rows| - |s.rows| < BatchSize(limit) ==> forall r :: r in s.rows ==> !Old(r, cutoff))
            && OnlyReferred(t, s)
            && s == t.(rows := s.rows, logical := s.logical, updates := s.updates, usage := s.usage)
  {
    RetiredAre(t, cutoff, limit);
    OldestGo(t, cutoff, limit);
    HowManyGo(t, cutoff, limit);
  }

  // ----- pruning -----

  /** A message that a prune is about. */
  predicate Pruned(t: Tables, c: Conversation, cutoff: int, deliveredOnly: bool, id: LogicalId) {
    && id in t.logical && t.logical[id].conversation == c && t.logical[id].acceptedAt < cutoff
    && (deliveredOnly ==> forall r :: r in t.rows && r.wire.logicalId == id ==> r.deliveredAt != None)
  }

  /** The pruned messages are gone with all their envelopes and updates, and nothing else is. */
  ghost predicate PrunedFrom(t: Tables, s: Tables, c: Conversation, cutoff: int, deliveredOnly: bool) {
    && (forall id :: id in s.logical <==> id in t.logical && !Pruned(t, c, cutoff, deliveredOnly, id))
    && (forall id :: id in s.logical ==> s.logical[id] == t.logical[id])
    && (forall r :: r in s.rows <==> r in t.rows && !Pruned(t, c, cutoff, deliveredOnly, r.wire.logicalId))
    && (forall u :: u in s.updates <==> u in t.updates && !Pruned(t, c, cutoff, deliveredOnly, u.logicalId))
    && s == t.(logical := s.logical, rows := s.rows, updates := s.updates, usage := s.usage)
  }

  /**
   A prune removes exactly the conversation's messages accepted before the cutoff, if asked only those
   that every device has got, with all their envelopes and updates.
   */
  lemma PrunesExactly(t: Tables, c: Conversation, cutoff: int, deliveredOnly: bool)
    requires Inv(t)
    ensures PrunedFrom(t, PruneConversation(t, c, cutoff, deliveredOnly), c, cutoff, deliveredOnly)
  {
    PruneRemovesTargets(t, c, cutoff, deliveredOnly);
    var ids := PruneTargets(t, c, cutoff, deliveredOnly);
    forall id: LogicalId ensures id in ids <==> Pruned(t, c, cutoff, deliveredOnly, id) {
    }
  }
}
