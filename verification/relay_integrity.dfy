/**
 What every transaction of the relay keeps: foreign keys, agreement between tables,
 exact usage counters, and quotas.
 */
module RelayIntegrity {
  import opened Ids
  import opened Sums
  import opened RelayTables

  // ----- the invariant -----

  ghost predicate Sorted(rows: seq<Row>) {
    forall i, j :: 0 <= i < j < |rows| ==> rows[i].cursor < rows[j].cursor
  }

  ghost predicate SortedUpdates(updates: seq<Update>) {
    forall i, j :: 0 <= i < j < |updates| ==> updates[i].cursor < updates[j].cursor
  }

  /** AUTOINCREMENT: cursors ascend and are never handed out twice. */
  ghost predicate Counters(t: Tables) {
    && Sorted(t.rows) && (forall r :: r in t.rows ==> r.cursor < t.nextCursor)
    && SortedUpdates(t.updates) && (forall u :: u in t.updates ==> u.cursor < t.nextUpdate)
  }

  /** Every REFERENCES clause of the schema. */
  ghost predicate ForeignKeys(t: Tables) {
    && (forall d :: d in t.devices ==> t.devices[d].account in t.accounts)
    && (forall k :: k in t.prekeys ==> k.device in t.devices)
    && (forall id :: id in t.logical ==> LogicalKeys(t, t.logical[id]))
    && (forall r :: r in t.rows ==> RowKeys(t, r))
    && (forall u :: u in t.updates ==> u.account in t.accounts)
    && (forall i :: i in t.events ==> t.events[i].sender in t.devices && t.events[i].target in t.devices)
    && t.usage.Keys <= t.accounts.Keys
  }

  ghost predicate LogicalKeys(t: Tables, l: Logical) {
    l.senderAccount in t.accounts && l.senderDevice in t.devices && l.peer in t.accounts
  }

  ghost predicate RowKeys(t: Tables, r: Row) {
    && r.wire.logicalId in t.logical
    && r.senderAccount in t.accounts && r.senderDevice in t.devices
    && r.wire.recipientAccount in t.accounts && r.wire.recipientDevice in t.devices
  }

  /** A row agrees with its logical message, and is addressed to the sender or the single peer. */
  ghost predicate RowMatches(t: Tables, r: Row)
    requires r.wire.logicalId in t.logical
  {
    var l := t.logical[r.wire.logicalId];
    && r.senderAccount == l.senderAccount && r.senderDevice == l.senderDevice
    && r.wire.conversation == l.conversation
    && (r.wire.recipientAccount == l.senderAccount || r.wire.recipientAccount == l.peer)
    && r.wire.recipientDevice in t.devices && t.devices[r.wire.recipientDevice].account == r.wire.recipientAccount
  }

  ghost predicate LogicalMatches(t: Tables, l: Logical) {
    && l.conversation == ConversationOf(l.senderAccount, l.peer)
    && l.senderDevice in t.devices && t.devices[l.senderDevice].account == l.senderAccount
  }

  ghost predicate UniqueIds(rows: seq<Row>) {
    forall r, s :: r in rows && s in rows && r.wire.envelopeId == s.wire.envelopeId ==> r == s
  }

  ghost predicate UniqueUpdates(updates: seq<Update>) {
    forall u, v :: u in updates && v in updates && u.account == v.account && u.logicalId == v.logicalId ==> u == v
  }

  /** The UNIQUE clauses of the schema that are not primary keys. */
  ghost predicate Unique(t: Tables) {
    UniqueIds(t.rows) && UniqueUpdates(t.updates)
  }

  /** Agreement between tables that no constraint of the schema enforces. */
  ghost predicate CrossTable(t: Tables) {
    && (forall r :: r in t.rows ==> r.wire.logicalId in t.logical && RowMatches(t, r))
    && (forall id :: id in t.logical ==> LogicalMatches(t, t.logical[id]))
    && (forall u :: u in t.updates ==> u.logicalId in t.logical && u.account == t.logical[u.logicalId].senderAccount)
  }

  /** Every logical message still has an envelope. */
  ghost predicate EveryLogicalHasRow(t: Tables) {
    t.logical.Keys <= LiveIds(t.rows)
  }

  function BytesOf(rows: seq<Row>, account: AccountId): nat {
    if rows == [] then 0
    else (if rows[0].senderAccount == account then |rows[0].wire.ciphertext| else 0) + BytesOf(rows[1..], account)
  }

  ghost predicate UsageMatches(usage: map<AccountId, int>, rows: seq<Row>) {
    && (forall a :: a in usage ==> usage[a] == BytesOf(rows, a))
    && (forall r :: r in rows ==> r.senderAccount in usage)
  }

  /** The trigger-maintained counters are the sums they stand for. */
  ghost predicate UsageExact(t: Tables) {
    UsageMatches(t.usage, t.rows)
  }

  ghost predicate Base(t: Tables) {
    Counters(t) && Unique(t) && ForeignKeys(t) && CrossTable(t) && UsageExact(t)
  }

  ghost predicate Inv(t: Tables) {
    Base(t) && EveryLogicalHasRow(t)
  }

  ghost predicate WithinQuota(t: Tables, limits: Limits) {
    (forall a :: a in t.usage ==> t.usage[a] <= limits.account) && SumMap(t.usage) <= limits.total
  }

  // ----- tables in cursor order -----

  lemma TailSorted(rows: seq<Row>)
    requires Sorted(rows) && rows != []
    ensures Sorted(rows[1..]) && forall r :: r in rows[1..] ==> r.cursor > rows[0].cursor
  {
    forall r | r in rows[1..] ensures r.cursor > rows[0].cursor {
      var i :| 0 <= i < |rows[1..]| && rows[1..][i] == r;
      assert rows[i + 1] == r;
    }
  }

  lemma UpdatesTail(updates: seq<Update>)
    requires SortedUpdates(updates) && updates != []
    ensures SortedUpdates(updates[1..]) && forall u :: u in updates[1..] ==> u.cursor > updates[0].cursor
  {
    forall u | u in updates[1..] ensures u.cursor > updates[0].cursor {
      var i :| 0 <= i < |updates[1..]| && updates[1..][i] == u;
      assert updates[i + 1] == u;
    }
  }

  // ----- sums -----

  lemma {:induction false} BytesOfAppend(rows: seq<Row>, r: Row, a: AccountId)
    ensures BytesOf(rows + [r], a) == BytesOf(rows, a) + if r.senderAccount == a then |r.wire.ciphertext| else 0
  {
    if rows == [] {
      assert rows + [r] == [r];
    } else {
      assert (rows + [r])[1..] == rows[1..] + [r];
      BytesOfAppend(rows[1..], r, a);
    }
  }

  lemma {:induction false} SumZero(m: map<AccountId, int>)
    requires forall k :: k in m ==> m[k] == 0
    ensures SumMap(m) == 0
    decreases |m|
  {
    if m == map[] {
    } else {
      var k :| k in m;
      SumRemove(m, k);
      SumZero(m - {k});
    }
  }

  /** The total over the usage table is the size of all stored ciphertext. */
  lemma {:induction false} TotalUsage(usage: map<AccountId, int>, rows: seq<Row>)
    requires UsageMatches(usage, rows)
    ensures SumMap(usage) == Bytes(rows)
  {
    if rows == [] {
      SumZero(usage);
    } else {
      var a := rows[0].senderAccount;
      assert rows[0] in rows;
      var rest := usage[a := usage[a] - |rows[0].wire.ciphertext|];
      SumUpdate(usage, a, rest[a]);
      assert forall r :: r in rows[1..] ==> r in rows;
      TotalUsage(rest, rows[1..]);
    }
  }

  // ----- deletion -----

  lemma {:induction false} WithoutSorted(rows: seq<Row>, drop: set<nat>)
    requires Sorted(rows)
    ensures Sorted(Without(rows, drop))
  {
    if rows == [] {
    } else {
      WithoutSorted(rows[1..], drop);
      var rest := Without(rows[1..], drop);
      forall r | r in rest ensures rows[0].cursor < r.cursor {
        assert r in rows[1..];
        var i :| 0 <= i < |rows[1..]| && rows[1..][i] == r;
        assert rows[i + 1] == r;
      }
    }
  }

  /** Deleting rows subtracts exactly their bytes; a counter is never clamped at zero. */
  lemma {:induction false} RefundIsExact(usage: map<AccountId, int>, rows: seq<Row>, drop: set<nat>, a: AccountId, kept: nat)
    requires a in usage && usage[a] == kept + BytesOf(rows, a)
    ensures a in RefundAll(usage, rows, drop)
    ensures RefundAll(usage, rows, drop)[a] == kept + BytesOf(Without(rows, drop), a)
  {
    if rows == [] {
    } else {
      var r := rows[0];
      var dropped := r.cursor in drop;
      var next := if dropped then Refund(usage, r) else usage;
      var more := if dropped || r.senderAccount != a then 0 else |r.wire.ciphertext|;
      RefundIsExact(next, rows[1..], drop, a, kept + more);
      if !dropped {
        assert Without(rows, drop) == [r] + Without(rows[1..], drop);
        assert ([r] + Without(rows[1..], drop))[1..] == Without(rows[1..], drop);
      } else {
        assert Without(rows, drop) == Without(rows[1..], drop);
      }
    }
  }

  lemma {:induction false} RefundKeys(usage: map<AccountId, int>, rows: seq<Row>, drop: set<nat>)
    ensures RefundAll(usage, rows, drop).Keys == usage.Keys
  {
    if rows == [] {
    } else {
      RefundKeys(if rows[0].cursor in drop then Refund(usage, rows[0]) else usage, rows[1..], drop);
    }
  }

  /** The delete trigger without its MAX(0, ...). */
  function RefundUnclamped(usage: map<AccountId, int>, rows: seq<Row>, drop: set<nat>): map<AccountId, int> {
    if rows == [] then usage
    else
      var r := rows[0];
      RefundUnclamped(
        if r.cursor in drop && r.senderAccount in usage
        then usage[r.senderAccount := usage[r.senderAccount] - |r.wire.ciphertext|] else usage,
        rows[1..], drop)
  }

  lemma {:induction false} ClampNeverFires(usage: map<AccountId, int>, rows: seq<Row>, drop: set<nat>)
    requires forall a :: a in usage ==> usage[a] >= BytesOf(rows, a)
    ensures RefundAll(usage, rows, drop) == RefundUnclamped(usage, rows, drop)
  {
    if rows == [] {
    } else {
      var r := rows[0];
      var next := if r.cursor in drop then Refund(usage, r) else usage;
      assert forall a :: a in next ==> next[a] >= BytesOf(rows[1..], a) by {
        forall a | a in next ensures next[a] >= BytesOf(rows[1..], a) {
          assert usage[a] >= BytesOf(rows, a);
        }
      }
      ClampNeverFires(next, rows[1..], drop);
    }
  }

  lemma DeleteKeepsUsage(t: Tables, drop: set<nat>)
    requires UsageExact(t)
    ensures UsageExact(DeleteRows(t, drop))
    ensures DeleteRows(t, drop).usage.Keys == t.usage.Keys
    ensures DeleteRows(t, drop).usage == RefundUnclamped(t.usage, t.rows, drop)
  {
    RefundKeys(t.usage, t.rows, drop);
    ClampNeverFires(t.usage, t.rows, drop);
    forall a | a in t.usage ensures RefundAll(t.usage, t.rows, drop)[a] == BytesOf(Without(t.rows, drop), a) {
      RefundIsExact(t.usage, t.rows, drop, a, 0);
    }
  }

  lemma {:induction false} KeepUpdatesSorted(updates: seq<Update>, ids: set<LogicalId>)
    requires SortedUpdates(updates)
    ensures SortedUpdates(KeepUpdates(updates, ids))
  {
    if updates == [] {
    } else {
      KeepUpdatesSorted(updates[1..], ids);
    }
  }

  lemma {:induction false} DropUpdatesSorted(updates: seq<Update>, ids: set<LogicalId>, account: Option<AccountId>)
    requires SortedUpdates(updates)
    ensures SortedUpdates(DropUpdates(updates, ids, account))
  {
    if updates == [] {
    } else {
      DropUpdatesSorted(updates[1..], ids, account);
    }
  }

  /** `s` is `t` with fewer rows, logical messages, updates and prekeys. */
  ghost predicate Shrinks(t: Tables, s: Tables) {
    && s.accounts == t.accounts && s.devices == t.devices && s.events == t.events
    && s.prekeys <= t.prekeys && s.usage.Keys == t.usage.Keys
    && (forall r :: r in s.rows ==> r in t.rows && r.wire.logicalId in s.logical)
    && (forall id :: id in s.logical ==> id in t.logical && s.logical[id] == t.logical[id])
    && (forall u :: u in s.updates ==> u in t.updates && u.logicalId in s.logical)
  }

  lemma ShrinkKeepsForeignKeys(t: Tables, s: Tables)
    requires ForeignKeys(t) && Shrinks(t, s)
    ensures ForeignKeys(s)
  {
    forall r | r in s.rows ensures RowKeys(s, r) {
      assert RowKeys(t, r);
    }
    forall id | id in s.logical ensures LogicalKeys(s, s.logical[id]) {
      assert LogicalKeys(t, t.logical[id]);
    }
  }

  lemma ShrinkKeepsCrossTable(t: Tables, s: Tables)
    requires CrossTable(t) && Unique(t) && Shrinks(t, s)
    ensures CrossTable(s) && Unique(s)
  {
    forall r | r in s.rows ensures RowMatches(s, r) {
      assert RowMatches(t, r);
    }
    forall id | id in s.logical ensures LogicalMatches(s, s.logical[id]) {
      assert LogicalMatches(t, t.logical[id]);
    }
  }

  lemma DeleteShrinks(t: Tables, drop: set<nat>)
    requires CrossTable(t) && UsageExact(t)
    ensures Shrinks(t, DeleteRows(t, drop))
  {
    DeleteKeepsUsage(t, drop);
  }

  /** Deleting any rows and purging orphans keeps every invariant. */
  lemma DeleteAndPurgeKeepsInv(t: Tables, drop: set<nat>)
    requires Inv(t)
    ensures Inv(PurgeOrphans(DeleteRows(t, drop)))
  {
    DeleteKeepsUsage(t, drop);
    WithoutSorted(t.rows, drop);
    var s := DeleteRows(t, drop);
    DeleteShrinks(t, drop);
    ShrinkKeepsForeignKeys(t, s);
    ShrinkKeepsCrossTable(t, s);
    PurgeKeepsInv(s);
  }

  lemma PurgeKeepsInv(t: Tables)
    requires Base(t)
    ensures Inv(PurgeOrphans(t))
  {
    ShrinkKeepsForeignKeys(t, PurgeOrphans(t));
    ShrinkKeepsCrossTable(t, PurgeOrphans(t));
    KeepUpdatesSorted(t.updates, LiveIds(t.rows));
  }

  lemma CleanupDeliveredKeepsInv(t: Tables, cutoff: int, limit: nat)
    requires Inv(t)
    ensures Inv(CleanupDelivered(t, cutoff, limit))
  {
    DeleteAndPurgeKeepsInv(t, Cursors(Take(ExpiredRows(t.rows, cutoff), Clamp(limit, 1, 10_000))));
  }

  lemma DropPrekeysKeepsInv(t: Tables, keys: set<Prekey>)
    requires Inv(t) && keys <= t.prekeys
    ensures Inv(t.(prekeys := keys))
  {
    var s := t.(prekeys := keys);
    ShrinkKeepsForeignKeys(t, s);
    ShrinkKeepsCrossTable(t, s);
  }

  lemma CleanupRevokedKeepsInv(t: Tables, device: DeviceId)
    requires Inv(t)
    ensures Inv(CleanupRevoked(t, device))
  {
    var keys := set k | k in t.prekeys && k.device != device;
    DropPrekeysKeepsInv(t, keys);
    DeleteAndPurgeKeepsInv(t.(prekeys := keys), set r | r in t.rows && r.wire.recipientDevice == device :: r.cursor);
  }

  lemma SameCursorSameRow(rows: seq<Row>, r: Row, s: Row)
    requires Sorted(rows) && r in rows && s in rows && r.cursor == s.cursor
    ensures r == s
  {
    var i :| 0 <= i < |rows| && rows[i] == r;
    var j :| 0 <= j < |rows| && rows[j] == s;
    assert i == j;
  }

  lemma RowsOfSelects(rows: seq<Row>, ids: set<LogicalId>)
    requires Sorted(rows)
    ensures forall r :: r in Without(rows, RowsOf(rows, ids)) <==> r in rows && r.wire.logicalId !in ids
  {
    forall r | r in rows ensures r.cursor in RowsOf(rows, ids) <==> r.wire.logicalId in ids {
      if r.cursor in RowsOf(rows, ids) {
        var s :| s in rows && s.wire.logicalId in ids && s.cursor == r.cursor;
        SameCursorSameRow(rows, r, s);
      }
    }
  }

  /** After the rows of some logical messages are gone, exactly those messages have no row. */
  lemma LiveAfterRowsOf(t: Tables, ids: set<LogicalId>, kept: seq<Row>)
    requires EveryLogicalHasRow(t)
    requires forall r :: r in kept <==> r in t.rows && r.wire.logicalId !in ids
    ensures forall id :: id in t.logical ==> (id in LiveIds(kept) <==> id !in ids)
  {
    forall id | id in t.logical && id !in ids ensures id in LiveIds(kept) {
      assert id in LiveIds(t.rows);
      var r :| r in t.rows && r.wire.logicalId == id;
      assert r in kept;
    }
  }

  /** A prune removes exactly the selected logical messages with all their rows and updates. */
  lemma PruneRemovesTargets(t: Tables, conversation: Conversation, cutoff: int, deliveredOnly: bool)
    requires Sorted(t.rows) && EveryLogicalHasRow(t)
    ensures var ids := PruneTargets(t, conversation, cutoff, deliveredOnly);
            var after := PruneConversation(t, conversation, cutoff, deliveredOnly);
            && after.logical == t.logical - ids
            && (forall r :: r in after.rows <==> r in t.rows && r.wire.logicalId !in ids)
            && after.updates == DropUpdates(t.updates, ids, None)
  {
    var ids := PruneTargets(t, conversation, cutoff, deliveredOnly);
    TargetsStay(t, DropUpdates(t.updates, ids, None), conversation, cutoff, deliveredOnly);
    RowsOfSelects(t.rows, ids);
    DeadAreTargets(t, conversation, cutoff, deliveredOnly, Without(t.rows, RowsOf(t.rows, ids)));
  }

  lemma TargetsStay(t: Tables, updates: seq<Update>, conversation: Conversation, cutoff: int, deliveredOnly: bool)
    ensures PruneTargets(t.(updates := updates), conversation, cutoff, deliveredOnly)
         == PruneTargets(t, conversation, cutoff, deliveredOnly)
  {
  }

  /** Once the rows of the targets are gone, the messages without rows are the targets. */
  lemma DeadAreTargets(t: Tables, conversation: Conversation, cutoff: int, deliveredOnly: bool, kept: seq<Row>)
    requires EveryLogicalHasRow(t)
    requires var ids := PruneTargets(t, conversation, cutoff, deliveredOnly);
             forall r :: r in kept <==> r in t.rows && r.wire.logicalId !in ids
    ensures DropDead(t.logical, conversation, cutoff, LiveIds(kept))
         == t.logical - PruneTargets(t, conversation, cutoff, deliveredOnly)
  {
    LiveAfterRowsOf(t, PruneTargets(t, conversation, cutoff, deliveredOnly), kept);
  }

  lemma PruneKeepsInv(t: Tables, conversation: Conversation, cutoff: int, deliveredOnly: bool)
    requires Inv(t)
    ensures Inv(PruneConversation(t, conversation, cutoff, deliveredOnly))
  {
    var ids := PruneTargets(t, conversation, cutoff, deliveredOnly);
    var t1 := t.(updates := DropUpdates(t.updates, ids, None));
    assert PruneTargets(t1, conversation, cutoff, deliveredOnly) == ids;
    var after := PruneConversation(t, conversation, cutoff, deliveredOnly);
    PruneRemovesTargets(t, conversation, cutoff, deliveredOnly);
    DropUpdatesSorted(t.updates, ids, None);
    DeleteKeepsUsage(t1, RowsOf(t1.rows, ids));
    WithoutSorted(t.rows, RowsOf(t.rows, ids));
    assert Shrinks(t, after);
    ShrinkKeepsForeignKeys(t, after);
    ShrinkKeepsCrossTable(t, after);
    forall id | id in after.logical ensures id in LiveIds(after.rows) {
      assert id in LiveIds(t.rows);
      var r :| r in t.rows && r.wire.logicalId == id;
      assert r in after.rows;
    }
  }

  // ----- account deletion: each table, after any number of statements -----

  // What one statement does to each table.

  lemma CountersStatement(s: Tables, account: AccountId, step: nat)
    ensures DeleteStatement(s, account, step).nextCursor == s.nextCursor
    ensures DeleteStatement(s, account, step).nextUpdate == s.nextUpdate
  {
    if step == 2 {
      var drop := AccountRows(s.rows, account, LogicalOf(s, account));
      assert DeleteStatement(s, account, 2) == DeleteRows(s, drop);
    }
  }

  lemma {:induction false} DeleteDevices(t: Tables, account: AccountId, k: nat)
    requires k <= DELETE_STATEMENTS
    ensures DeleteUser(t, account, k).devices == if k < 6 then t.devices else t.devices - DevicesOf(t, account)
  {
    if k == 0 {
    } else {
      DeleteDevices(t, account, k - 1);
    }
  }

  lemma {:induction false} DeleteAccounts(t: Tables, account: AccountId, k: nat)
    requires k <= DELETE_STATEMENTS
    ensures DeleteUser(t, account, k).accounts == if k < 7 then t.accounts else t.accounts - {account}
    ensures DeleteUser(t, account, k).nextCursor == t.nextCursor
    ensures DeleteUser(t, account, k).nextUpdate == t.nextUpdate
  {
    if k == 0 {
    } else {
      DeleteAccounts(t, account, k - 1);
      CountersStatement(DeleteUser(t, account, k - 1), account, k - 1);
    }
  }

  lemma {:induction false} DeleteLogical(t: Tables, account: AccountId, k: nat)
    requires k <= DELETE_STATEMENTS
    ensures DeleteUser(t, account, k).logical == if k < 4 then t.logical else t.logical - LogicalOf(t, account)
  {
    if k == 0 {
    } else {
      DeleteLogical(t, account, k - 1);
      if k == 4 {
        assert LogicalOf(DeleteUser(t, account, 3), account) == LogicalOf(t, account);
      }
    }
  }

  lemma {:induction false} DeletePrekeys(t: Tables, account: AccountId, k: nat)
    requires k <= DELETE_STATEMENTS
    ensures DeleteUser(t, account, k).prekeys
         == if k < 5 then t.prekeys else set p | p in t.prekeys && p.device !in DevicesOf(t, account)
  {
    if k == 0 {
    } else {
      DeletePrekeys(t, account, k - 1);
      DeleteDevices(t, account, k - 1);
      if k == 5 {
        assert DevicesOf(DeleteUser(t, account, 4), account) == DevicesOf(t, account);
      }
    }
  }

  ghost predicate EventOf(e: PairingEvent, mine: set<DeviceId>) {
    e.sender in mine || e.target in mine
  }

  lemma EventsStatement(s: Tables, account: AccountId, step: nat)
    ensures step != 0 ==> DeleteStatement(s, account, step).events == s.events
    ensures step == 0 ==>
      DeleteStatement(s, account, step).events
      == map i | i in s.events && !EventOf(s.events[i], DevicesOf(s, account)) :: s.events[i]
  {
  }

  lemma {:induction false} DeleteEvents(t: Tables, account: AccountId, k: nat)
    requires k <= DELETE_STATEMENTS
    ensures var events := DeleteUser(t, account, k).events;
            && (forall i :: i in events <==> i in t.events && (k < 1 || !EventOf(t.events[i], DevicesOf(t, account))))
            && (forall i :: i in events ==> events[i] == t.events[i])
  {
    if k == 0 {
    } else {
      DeleteEvents(t, account, k - 1);
      EventsStatement(DeleteUser(t, account, k - 1), account, k - 1);
      if k == 1 {
        assert DeleteUser(t, account, 0) == t;
      }
    }
  }

  lemma {:induction false} DeleteUpdates(t: Tables, account: AccountId, k: nat)
    requires k <= DELETE_STATEMENTS
    ensures DeleteUser(t, account, k).updates
         == if k < 2 then t.updates else DropUpdates(t.updates, LogicalOf(t, account), Some(account))
  {
    if k == 0 {
    } else {
      DeleteUpdates(t, account, k - 1);
      if k == 2 {
        DeleteLogical(t, account, 1);
        assert LogicalOf(DeleteUser(t, account, 1), account) == LogicalOf(t, account);
      }
    }
  }

  /** Under the invariant, the rows that mention an account are those of its logical messages. */
  lemma RowInvolves(t: Tables, account: AccountId, r: Row)
    requires CrossTable(t) && r in t.rows
    ensures (r.senderAccount == account || r.wire.recipientAccount == account) ==>
              r.wire.logicalId in LogicalOf(t, account)
    ensures r.wire.logicalId !in LogicalOf(t, account) ==>
              r.senderDevice !in DevicesOf(t, account) && r.wire.recipientDevice !in DevicesOf(t, account)
  {
    assert RowMatches(t, r);
    assert LogicalMatches(t, t.logical[r.wire.logicalId]);
  }

  function AccountRows(rows: seq<Row>, account: AccountId, ids: set<LogicalId>): set<nat> {
    set r | r in rows && (r.senderAccount == account || r.wire.recipientAccount == account
                          || r.wire.logicalId in ids) :: r.cursor
  }

  lemma RowsStatement(s: Tables, account: AccountId, step: nat)
    ensures step != 2 ==> DeleteStatement(s, account, step).rows == s.rows
    ensures step != 2 && step != 6 ==> DeleteStatement(s, account, step).usage == s.usage
    ensures step == 2 ==>
      DeleteStatement(s, account, step) == DeleteRows(s, AccountRows(s.rows, account, LogicalOf(s, account)))
    ensures step == 6 ==> DeleteStatement(s, account, step).usage == s.usage - {account}
  {
  }

  /** The envelope statement deletes exactly the rows of the account's logical messages. */
  lemma AccountRowsSelect(t: Tables, account: AccountId)
    requires CrossTable(t) && Sorted(t.rows)
    ensures AccountRows(t.rows, account, LogicalOf(t, account)) == RowsOf(t.rows, LogicalOf(t, account))
  {
    forall r | r in t.rows
      ensures (r.senderAccount == account || r.wire.recipientAccount == account
               || r.wire.logicalId in LogicalOf(t, account)) <==> r.wire.logicalId in LogicalOf(t, account)
    {
      RowInvolves(t, account, r);
    }
  }

  lemma {:induction false} DeleteUserRows(t: Tables, account: AccountId, k: nat)
    requires CrossTable(t) && Sorted(t.rows) && k <= DELETE_STATEMENTS
    ensures var rows := DeleteUser(t, account, k).rows;
            && Sorted(rows)
            && (forall r :: r in rows <==> r in t.rows && (k < 3 || r.wire.logicalId !in LogicalOf(t, account)))
            && (k < 3 ==> rows == t.rows)
  {
    if k == 0 {
    } else {
      DeleteUserRows(t, account, k - 1);
      var s := DeleteUser(t, account, k - 1);
      RowsStatement(s, account, k - 1);
      if k == 3 {
        DeleteLogical(t, account, 2);
        assert LogicalOf(s, account) == LogicalOf(t, account);
        AccountRowsSelect(t, account);
        RowsOfSelects(s.rows, LogicalOf(t, account));
        WithoutSorted(s.rows, RowsOf(s.rows, LogicalOf(t, account)));
      }
    }
  }

  lemma {:induction false} DeleteUserUsage(t: Tables, account: AccountId, k: nat)
    requires CrossTable(t) && Sorted(t.rows) && UsageExact(t) && k <= DELETE_STATEMENTS
    ensures UsageExact(DeleteUser(t, account, k))
    ensures DeleteUser(t, account, k).usage.Keys == if k < 7 then t.usage.Keys else t.usage.Keys - {account}
  {
    if k == 0 {
    } else {
      DeleteUserUsage(t, account, k - 1);
      var s := DeleteUser(t, account, k - 1);
      RowsStatement(s, account, k - 1);
      if k == 3 {
        DeleteKeepsUsage(s, AccountRows(s.rows, account, LogicalOf(s, account)));
      } else if k == 7 {
        DeleteUserRows(t, account, 6);
        forall r | r in s.rows ensures r.senderAccount != account {
          RowInvolves(t, account, r);
        }
      }
    }
  }

  /** No statement of account deletion breaks a foreign key. */
  lemma DeleteUserKeepsForeignKeys(t: Tables, account: AccountId, k: nat)
    requires Inv(t) && k <= DELETE_STATEMENTS
    ensures ForeignKeys(DeleteUser(t, account, k))
  {
    DeleteUserKeepsDeviceKeys(t, account, k);
    DeleteUserKeepsMessageKeys(t, account, k);
    DeleteUserKeepsRowKeys(t, account, k);
  }

  /** The tables that others refer to, after k statements. */
  ghost predicate Remaining(t: Tables, s: Tables, account: AccountId, k: nat) {
    && s.devices == (if k < 6 then t.devices else t.devices - DevicesOf(t, account))
    && s.accounts == (if k < 7 then t.accounts else t.accounts - {account})
    && s.logical == (if k < 4 then t.logical else t.logical - LogicalOf(t, account))
  }

  lemma DeleteLeaves(t: Tables, account: AccountId, k: nat)
    requires k <= DELETE_STATEMENTS
    ensures Remaining(t, DeleteUser(t, account, k), account, k)
  {
    DeleteDevices(t, account, k);
    DeleteAccounts(t, account, k);
    DeleteLogical(t, account, k);
  }

  /** A row of a logical message that stays keeps everything it refers to. */
  lemma RowKeysStay(t: Tables, s: Tables, account: AccountId, k: nat, r: Row)
    requires CrossTable(t) && RowKeys(t, r) && r in t.rows && Remaining(t, s, account, k)
    requires k < 3 || r.wire.logicalId !in LogicalOf(t, account)
    ensures RowKeys(s, r)
  {
    RowInvolves(t, account, r);
  }

  lemma DeleteUserKeepsRowKeys(t: Tables, account: AccountId, k: nat)
    requires Inv(t) && k <= DELETE_STATEMENTS
    ensures var s := DeleteUser(t, account, k); forall r :: r in s.rows ==> RowKeys(s, r)
  {
    var s := DeleteUser(t, account, k);
    DeleteLeaves(t, account, k);
    DeleteUserRows(t, account, k);
    forall r | r in s.rows ensures RowKeys(s, r) {
      assert RowKeys(t, r);
      RowKeysStay(t, s, account, k, r);
    }
  }

  lemma DeleteUserKeepsDeviceKeys(t: Tables, account: AccountId, k: nat)
    requires Inv(t) && k <= DELETE_STATEMENTS
    ensures var s := DeleteUser(t, account, k);
            && (forall d :: d in s.devices ==> s.devices[d].account in s.accounts)
            && (forall p :: p in s.prekeys ==> p.device in s.devices)
            && (forall i :: i in s.events ==> s.events[i].sender in s.devices && s.events[i].target in s.devices)
            && s.usage.Keys <= s.accounts.Keys
  {
    DeleteDevices(t, account, k);
    DeleteAccounts(t, account, k);
    DeletePrekeys(t, account, k);
    DeleteEvents(t, account, k);
    DeleteUserUsage(t, account, k);
  }

  lemma DeleteUserKeepsMessageKeys(t: Tables, account: AccountId, k: nat)
    requires ForeignKeys(t) && CrossTable(t) && k <= DELETE_STATEMENTS
    ensures var s := DeleteUser(t, account, k);
            && (forall id :: id in s.logical ==> LogicalKeys(s, s.logical[id]))
            && (forall u :: u in s.updates ==> u.account in s.accounts)
  {
    var s := DeleteUser(t, account, k);
    DeleteLeaves(t, account, k);
    DeleteUpdates(t, account, k);
    forall id | id in s.logical ensures LogicalKeys(s, s.logical[id]) {
      assert LogicalKeys(t, t.logical[id]) && LogicalMatches(t, t.logical[id]);
    }
  }

  ghost predicate NoTrace(s: Tables, account: AccountId, mine: set<DeviceId>) {
    && account !in s.accounts && account !in s.usage && mine !! s.devices.Keys
    && (forall k :: k in s.prekeys ==> k.device !in mine)
    && (forall id :: id in s.logical ==> s.logical[id].senderAccount != account && s.logical[id].peer != account
                                         && s.logical[id].senderDevice !in mine)
    && (forall r :: r in s.rows ==> r.senderAccount != account && r.wire.recipientAccount != account
                                    && r.senderDevice !in mine && r.wire.recipientDevice !in mine)
    && (forall u :: u in s.updates ==> u.account != account)
    && (forall i :: i in s.events ==> !EventOf(s.events[i], mine))
  }

  /** Everything that does not involve the account is still there, unchanged. */
  ghost predicate OthersUntouched(t: Tables, s: Tables, account: AccountId) {
    var ids, mine := LogicalOf(t, account), DevicesOf(t, account);
    && s.accounts == t.accounts - {account}
    && s.devices == t.devices - mine
    && s.prekeys == (set k | k in t.prekeys && k.device !in mine)
    && s.logical == t.logical - ids
    && (forall r :: r in s.rows <==> r in t.rows && r.wire.logicalId !in ids)
    && (forall u :: u in s.updates <==> u in t.updates && u.logicalId !in ids)
    && (forall i :: i in t.events && !EventOf(t.events[i], mine) ==> i in s.events && s.events[i] == t.events[i])
    && s.usage.Keys == t.usage.Keys - {account}
  }

  lemma DeleteUserLeavesOthers(t: Tables, account: AccountId)
    requires Inv(t)
    ensures OthersUntouched(t, DeleteUser(t, account, DELETE_STATEMENTS), account)
  {
    DeleteDevices(t, account, DELETE_STATEMENTS);
    DeleteAccounts(t, account, DELETE_STATEMENTS);
    DeleteLogical(t, account, DELETE_STATEMENTS);
    DeletePrekeys(t, account, DELETE_STATEMENTS);
    DeleteEvents(t, account, DELETE_STATEMENTS);
    DeleteUpdates(t, account, DELETE_STATEMENTS);
    DeleteUserRows(t, account, DELETE_STATEMENTS);
    DeleteUserUsage(t, account, DELETE_STATEMENTS);
    forall u | u in t.updates && u.logicalId !in LogicalOf(t, account) ensures u.account != account {
      assert u.account == t.logical[u.logicalId].senderAccount;
    }
  }

  lemma DeleteUserLeavesNoTrace(t: Tables, account: AccountId)
    requires Inv(t)
    ensures NoTrace(DeleteUser(t, account, DELETE_STATEMENTS), account, DevicesOf(t, account))
  {
    DeleteUserLeavesOthers(t, account);
    DeleteEvents(t, account, DELETE_STATEMENTS);
    var s := DeleteUser(t, account, DELETE_STATEMENTS);
    forall r | r in s.rows ensures r.senderAccount != account && r.wire.recipientAccount != account
                                   && r.senderDevice !in DevicesOf(t, account)
                                   && r.wire.recipientDevice !in DevicesOf(t, account) {
      RowInvolves(t, account, r);
    }
    forall id | id in s.logical ensures s.logical[id].senderDevice !in DevicesOf(t, account) {
      assert LogicalMatches(t, t.logical[id]);
    }
    forall u | u in s.updates ensures u.account != account {
      assert u.account == t.logical[u.logicalId].senderAccount;
    }
  }

  lemma DeleteUserKeepsCrossTable(t: Tables, account: AccountId)
    requires Inv(t)
    ensures CrossTable(DeleteUser(t, account, DELETE_STATEMENTS))
    ensures Unique(DeleteUser(t, account, DELETE_STATEMENTS))
    ensures EveryLogicalHasRow(DeleteUser(t, account, DELETE_STATEMENTS))
  {
    DeleteUserLeavesOthers(t, account);
    var s := DeleteUser(t, account, DELETE_STATEMENTS);
    forall r | r in s.rows ensures r.wire.logicalId in s.logical && RowMatches(s, r) {
      assert RowMatches(t, r);
      RowInvolves(t, account, r);
    }
    forall id | id in s.logical ensures LogicalMatches(s, s.logical[id]) && id in LiveIds(s.rows) {
      assert LogicalMatches(t, t.logical[id]);
      assert id in LiveIds(t.rows);
      var r :| r in t.rows && r.wire.logicalId == id;
      assert r in s.rows;
    }
  }

  lemma DeleteUserKeepsInv(t: Tables, account: AccountId)
    requires Inv(t)
    ensures Inv(DeleteUser(t, account, DELETE_STATEMENTS))
  {
    DeleteUserKeepsForeignKeys(t, account, DELETE_STATEMENTS);
    DeleteUserKeepsCrossTable(t, account);
    DeleteUserRows(t, account, DELETE_STATEMENTS);
    DeleteUserUsage(t, account, DELETE_STATEMENTS);
    DeleteUpdates(t, account, DELETE_STATEMENTS);
    DropUpdatesSorted(t.updates, LogicalOf(t, account), Some(account));
    DeleteAccounts(t, account, DELETE_STATEMENTS);
  }
}
