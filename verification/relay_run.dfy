/** Whole runs of the relay: any sequence of its transactions. */
module RelayRun {
  // Operations come in any order and from any clients. The invariant and the quotas hold throughout,
  // and rows evolve in the one way that the clients' cursors rely on.

  import opened Ids
  import opened RelayTables
  import opened RelayIntegrity
  import opened RelayStore
  import Roster = RelayRoster

  // What touches no envelope: account states, one-time keys and pairing events. `key` is the oldest
  // key of the device, `id` the next AUTOINCREMENT key, and `ids` are the expired events.
  datatype SideOp =
    | SetState(account: AccountId, active: bool)
    | PublishPrekeys(device: DeviceId, keys: set<nat>)
    | ClaimPrekey(account: AccountId, device: DeviceId, key: nat)
    | AddPairingEvent(account: AccountId, sender: DeviceId, pairing: DeviceId, target: DeviceId, id: nat)
    | AckPairingEvent(target: DeviceId, id: nat)
    | ExpirePairingEvents(ids: set<nat>)

  // A transaction of the relay. Stores and acks come from authenticated sessions.
  datatype RelayOp =
    | Store(sender: AccountId, device: DeviceId, envelopes: seq<Wire>, now: int, limits: Limits, freeDisk: nat)
    | Acknowledge(device: DeviceId, id: EnvelopeId, now: int)
    | Retire(cutoff: int, limit: nat)
    | Prune(conversation: Conversation, cutoff: int, deliveredOnly: bool)
    | Membership(op: Roster.RosterOp)
    | Aside(side: SideOp)

  /** INSERT OR IGNORE of each key; a device that is gone aborts the transaction. */
  function Publish(t: Tables, device: DeviceId, keys: set<nat>): Tables {
    if device !in t.devices then t else t.(prekeys := t.prekeys + set k | k in keys :: Prekey(device, k))
  }

  /** A key is handed out once, and only of an active device. */
  function Claim(t: Tables, account: AccountId, device: DeviceId, key: nat): Tables {
    if device !in ActiveDevices(t, account) then t else t.(prekeys := t.prekeys - {Prekey(device, key)})
  }

  /** A pairing event stays within the account and has the waiting device at one end. */
  predicate PairingAllowed(t: Tables, account: AccountId, sender: DeviceId, pairing: DeviceId, target: DeviceId) {
    && sender in t.devices && target in t.devices && t.devices[target].account == account
    && pairing in PendingDevices(t, account) && (sender == pairing || target == pairing)
  }

  function ApplySide(t: Tables, op: SideOp): Tables {
    match op
    case SetState(a, active) =>
      if a !in t.accounts then t else t.(accounts := t.accounts[a := t.accounts[a].(active := active)])
    case PublishPrekeys(device, keys) => Publish(t, device, keys)
    case ClaimPrekey(account, device, key) => Claim(t, account, device, key)
    case AddPairingEvent(account, sender, pairing, target, id) =>
      if id in t.events || !PairingAllowed(t, account, sender, pairing, target) then t
      else t.(events := t.events[id := PairingEvent(sender, target)])
    case AckPairingEvent(target, id) =>
      if id in t.events && t.events[id].target == target then t.(events := t.events - {id}) else t
    case ExpirePairingEvents(ids) => t.(events := t.events - ids)
  }

  ghost function ApplyStore(t: Tables, op: RelayOp): Tables
    requires op.Store?
  {
    // `connection` checks account and device before every frame of an authenticated session
    if !IsActive(t, op.sender, op.device) then t
    else
      match StoreEnvelopes(t, op.sender, op.device, op.envelopes, op.now, op.limits, op.freeDisk)
      case Stored(s, _) => s
      case Refused(_) => t
  }

  ghost function Apply(t: Tables, op: RelayOp): Tables {
    match op
    case Store(_, _, _, _, _, _) => ApplyStore(t, op)
    case Acknowledge(device, id, now) => Ack(t, device, id, now).0
    case Retire(cutoff, limit) => CleanupDelivered(t, cutoff, limit)
    case Prune(c, cutoff, deliveredOnly) => PruneConversation(t, c, cutoff, deliveredOnly)
    case Membership(m) => Roster.Step(Roster.Roster(t, map[]), m).t
    case Aside(side) => ApplySide(t, side)
  }

  ghost function Run(t: Tables, ops: seq<RelayOp>): Tables
    decreases |ops|
  {
    if ops == [] then t else Run(Apply(t, ops[0]), ops[1..])
  }

  // ----- the invariant -----

  /** Devices, one-time keys and pairing events refer to what is there. */
  ghost predicate Owned(t: Tables) {
    && (forall d :: d in t.devices ==> t.devices[d].account in t.accounts)
    && (forall k :: k in t.prekeys ==> k.device in t.devices)
    && (forall i :: i in t.events ==> t.events[i].sender in t.devices && t.events[i].target in t.devices)
  }

  /** `s` is `t` with more accounts and devices, or other flags, one-time keys or pairing events of them. */
  ghost predicate Reshapes(t: Tables, s: Tables) {
    && s == t.(accounts := s.accounts, devices := s.devices, prekeys := s.prekeys, events := s.events)
    && t.accounts.Keys <= s.accounts.Keys
    && (forall d :: d in t.devices ==> d in s.devices && s.devices[d].account == t.devices[d].account)
    && Owned(s)
  }

  lemma ReshapeKeepsInv(t: Tables, s: Tables)
    requires Inv(t) && Reshapes(t, s)
    ensures Inv(s)
  {
    ReshapeKeepsForeignKeys(t, s);
    forall r | r in s.rows ensures RowMatches(s, r) {
      assert RowMatches(t, r);
    }
    forall id | id in s.logical ensures LogicalMatches(s, s.logical[id]) {
      assert LogicalMatches(t, t.logical[id]);
    }
  }

  lemma ReshapeKeepsForeignKeys(t: Tables, s: Tables)
    requires ForeignKeys(t) && Reshapes(t, s)
    ensures ForeignKeys(s)
  {
    forall r | r in s.rows ensures RowKeys(s, r) {
      assert RowKeys(t, r);
    }
    forall id | id in s.logical ensures LogicalKeys(s, s.logical[id]) {
      assert LogicalKeys(t, t.logical[id]);
    }
  }

  predicate Removes(op: Roster.RosterOp) {
    op.RevokeOwn? || op.RevokeByAdmin? || op.Delete?
  }

  lemma FirstReshapes(t: Tables, op: Roster.RosterOp)
    requires Owned(t) && op.Submit?
    ensures Reshapes(t, Roster.SubmitFirst(t, op).0)
  {
  }

  lemma PendingReshapes(t: Tables, op: Roster.RosterOp)
    requires Owned(t) && op.Submit?
    ensures Reshapes(t, Roster.SubmitPending(t, op).0)
  {
  }

  lemma SubmitReshapes(t: Tables, op: Roster.RosterOp)
    requires Owned(t) && op.Submit?
    ensures Reshapes(t, Roster.SubmitDevice(t, op).0)
  {
    FirstReshapes(t, op);
    PendingReshapes(t, op);
  }

  lemma ResetReshapes(t: Tables, a: AccountId)
    requires Owned(t)
    ensures Reshapes(t, ResetDevices(t, a))
  {
  }

  lemma ActivateReshapes(t: Tables, a: AccountId, d: DeviceId, revision: nat)
    requires Owned(t) && ActivateDevice(t, a, d, revision).Some?
    ensures Reshapes(t, ActivateDevice(t, a, d, revision).value)
  {
  }

  lemma MembershipReshapes(t: Tables, op: Roster.RosterOp)
    requires Owned(t) && !Removes(op)
    ensures Reshapes(t, Apply(t, Membership(op)))
  {
    match op
    case CreateAccount(_) =>
    case Submit(_, _, _, _, _) => SubmitReshapes(t, op);
    case Activate(a, _, d, revision) =>
      if ActivateDevice(t, a, d, revision).Some? {
        ActivateReshapes(t, a, d, revision);
      }
    case Reset(a) => ResetReshapes(t, a);
  }

  lemma KeysReshape(t: Tables, account: AccountId, device: DeviceId, key: nat, keys: set<nat>)
    requires Owned(t)
    ensures Reshapes(t, Publish(t, device, keys)) && Reshapes(t, Claim(t, account, device, key))
  {
  }

  lemma SideReshapes(t: Tables, op: SideOp)
    requires Owned(t)
    ensures Reshapes(t, ApplySide(t, op))
  {
    match op
    case PublishPrekeys(device, keys) => KeysReshape(t, 0, device, 0, keys);
    case ClaimPrekey(account, device, key) => KeysReshape(t, account, device, key, {});
    case _ =>
  }

  lemma RevokeKeepsInv(t: Tables, device: DeviceId)
    requires Inv(t)
    ensures Inv(CleanupRevoked(SetRevoked(t, {device}), device))
  {
    assert Reshapes(t, SetRevoked(t, {device}));
    ReshapeKeepsInv(t, SetRevoked(t, {device}));
    CleanupRevokedKeepsInv(SetRevoked(t, {device}), device);
  }

  lemma MembershipKeepsInv(t: Tables, op: Roster.RosterOp)
    requires Inv(t)
    ensures Inv(Apply(t, Membership(op)))
  {
    if Removes(op) {
      RemovalKeepsInv(t, op);
    } else {
      MembershipReshapes(t, op);
      ReshapeKeepsInv(t, Apply(t, Membership(op)));
    }
  }

  /** Device revocation changes flags and then empties the device's queue; or changes nothing. */
  lemma RevocationIs(t: Tables, op: Roster.RosterOp)
    requires op.RevokeOwn? || op.RevokeByAdmin?
    ensures || Apply(t, Membership(op)) == t
            || Apply(t, Membership(op)) == CleanupRevoked(SetRevoked(t, {op.device}), op.device)
  {
  }

  lemma RemovalKeepsInv(t: Tables, op: Roster.RosterOp)
    requires Inv(t) && Removes(op)
    ensures Inv(Apply(t, Membership(op)))
  {
    if op.Delete? {
      DeleteUserKeepsInv(t, op.account);
    } else {
      RevocationIs(t, op);
      RevokeKeepsInv(t, op.device);
    }
  }

  lemma ApplyKeepsInv(t: Tables, op: RelayOp)
    requires Inv(t)
    ensures Inv(Apply(t, op))
  {
    match op
    case Store(sender, device, envelopes, now, limits, freeDisk) =>
      if Apply(t, op) != t {
        StoreKeepsInv(t, sender, device, envelopes, now, limits, freeDisk);
      }
    case Acknowledge(device, id, now) => AckKeepsInv(t, device, id, now);
    case Retire(cutoff, limit) => CleanupDeliveredKeepsInv(t, cutoff, limit);
    case Prune(c, cutoff, deliveredOnly) => PruneKeepsInv(t, c, cutoff, deliveredOnly);
    case Membership(m) => MembershipKeepsInv(t, m);
    case Aside(side) =>
      SideReshapes(t, side);
      ReshapeKeepsInv(t, ApplySide(t, side));
  }

  lemma EmptyIsSound()
    ensures Inv(NO_TABLES)
  {
  }

  /** Keys, agreement between tables, and exact usage counters survive any run of the relay. */
  lemma {:induction false} RunKeepsInv(t: Tables, ops: seq<RelayOp>)
    requires Inv(t)
    ensures Inv(Run(t, ops))
    decreases |ops|
  {
    if ops == [] {
    } else {
      ApplyKeepsInv(t, ops[0]);
      RunKeepsInv(Apply(t, ops[0]), ops[1..]);
    }
  }

  /** From an empty relay the invariant holds at any time. */
  lemma InvFromStart(ops: seq<RelayOp>)
    ensures Inv(Run(NO_TABLES, ops))
  {
    EmptyIsSound();
    RunKeepsInv(NO_TABLES, ops);
  }

  // ----- how rows evolve -----

  /** The same stored envelope, whatever its delivery time. */
  predicate SameRow(q: Row, r: Row) {
    r == q.(deliveredAt := r.deliveredAt)
  }

  ghost predicate Known(rows: seq<Row>, r: Row) {
    exists q :: q in rows && SameRow(q, r)
  }

  /** Known, and only delivered if it was delivered before. */
  ghost predicate KnownAsDelivered(rows: seq<Row>, r: Row) {
    exists q :: q in rows && SameRow(q, r) && (r.deliveredAt.Some? ==> q.deliveredAt.Some?)
  }

  predicate NewlyStored(t: Tables, s: Tables, r: Row) {
    t.nextCursor <= r.cursor < s.nextCursor && r.deliveredAt.None?
  }

  /** Rows keep their cursor and envelope; a new row's cursor is above every cursor ever handed out. */
  ghost predicate Follows(t: Tables, s: Tables) {
    && t.nextCursor <= s.nextCursor
    && forall r :: r in s.rows ==> Known(t.rows, r) || NewlyStored(t, s, r)
  }

  /** No row of `device` is marked delivered except, if given, the one with envelope id `acked`. */
  ghost predicate DeliversOnly(t: Tables, s: Tables, device: DeviceId, acked: Option<EnvelopeId>) {
    forall r :: r in s.rows && r.wire.recipientDevice == device && r.deliveredAt.Some? ==>
      KnownAsDelivered(t.rows, r) || acked == Some(r.wire.envelopeId)
  }

  /** `s` has no rows but rows of `t`. */
  ghost predicate OnlyDrops(t: Tables, s: Tables) {
    s.nextCursor == t.nextCursor && forall r :: r in s.rows ==> r in t.rows
  }

  lemma StoreFollows(t: Tables, op: RelayOp, device: DeviceId)
    requires op.Store?
    ensures Follows(t, Apply(t, op)) && DeliversOnly(t, Apply(t, op), device, None)
  {
    var s := Apply(t, op);
    if s != t {
      var tx, active := StoredSteps(t, op.sender, op.device, op.envelopes, op.now, op.limits, op.freeDisk);
      InsertAllAppends(tx, op.sender, op.device, active, op.now);
      assert tx.rows == t.rows && tx.nextCursor == t.nextCursor;
      forall r | r in s.rows ensures KnownAsDelivered(t.rows, r) || NewlyStored(t, s, r) {
        var i :| 0 <= i < |s.rows| && s.rows[i] == r;
        if i < |t.rows| {
          assert s.rows[..|t.rows|][i] == t.rows[i];
          assert SameRow(t.rows[i], r);
        }
      }
    }
  }

  lemma MarkedIsKnown(rows: seq<Row>, from: DeviceId, id: EnvelopeId, now: int, r: Row)
    requires r in MarkDelivered(rows, from, id, now)
    ensures Known(rows, r) && (KnownAsDelivered(rows, r) || Acked(r, from, id))
  {
    var marked := MarkDelivered(rows, from, id, now);
    var i :| 0 <= i < |marked| && marked[i] == r;
    assert rows[i] in rows && SameRow(rows[i], r);
  }

  lemma AckFollows(t: Tables, from: DeviceId, id: EnvelopeId, now: int, device: DeviceId)
    requires UniqueIds(t.rows)
    ensures var s := Ack(t, from, id, now).0;
            Follows(t, s) && DeliversOnly(t, s, device, if from == device then Some(id) else None)
  {
    var s := Ack(t, from, id, now).0;
    AckMarksOnlyItsRow(t, from, id, now);
    forall r | r in s.rows ensures Known(t.rows, r) && (KnownAsDelivered(t.rows, r) || Acked(r, from, id)) {
      MarkedIsKnown(t.rows, from, id, now, r);
    }
  }

  lemma MembershipDrops(t: Tables, op: Roster.RosterOp)
    requires Inv(t)
    ensures OnlyDrops(t, Apply(t, Membership(op)))
  {
    match op
    case RevokeOwn(_, _) =>
    case RevokeByAdmin(_, _) =>
    case Delete(a) => DeleteUserDrops(t, a);
    case _ => MembershipReshapes(t, op);
  }

  lemma DeleteUserDrops(t: Tables, account: AccountId)
    requires CrossTable(t) && Sorted(t.rows)
    ensures OnlyDrops(t, DeleteUser(t, account, DELETE_STATEMENTS))
  {
    DeleteAccounts(t, account, DELETE_STATEMENTS);
    DeleteUserRows(t, account, DELETE_STATEMENTS);
  }

  /** The device an operation acknowledges for, and the envelope id, when it is that device. */
  function AckBy(op: RelayOp, device: DeviceId): Option<EnvelopeId> {
    if op.Acknowledge? && op.device == device then Some(op.id) else None
  }

  lemma ApplyFollows(t: Tables, op: RelayOp, device: DeviceId)
    requires Inv(t)
    ensures Follows(t, Apply(t, op)) && DeliversOnly(t, Apply(t, op), device, AckBy(op, device))
  {
    match op
    case Store(_, _, _, _, _, _) => StoreFollows(t, op, device);
    case Acknowledge(from, id, now) => AckFollows(t, from, id, now, device);
    case Retire(_, _) =>
    case Prune(c, cutoff, deliveredOnly) =>
      PruneRemovesTargets(t, c, cutoff, deliveredOnly);
    case Membership(m) =>
      MembershipDrops(t, m);
    case Aside(side) =>
      SideReshapes(t, side);
  }

  lemma OnlyStoresAdvance(t: Tables, op: RelayOp)
    requires Inv(t) && !op.Store?
    ensures Apply(t, op).nextCursor == t.nextCursor
  {
    match op
    case Acknowledge(device, id, now) => AckMarksOnlyItsRow(t, device, id, now);
    case Retire(_, _) =>
    case Prune(c, cutoff, deliveredOnly) => PruneRemovesTargets(t, c, cutoff, deliveredOnly);
    case Membership(m) => MembershipDrops(t, m);
    case Aside(side) => SideReshapes(t, side);
  }

  // ----- quotas -----

  /** Fewer rows hold fewer bytes. */
  lemma {:induction false} SubsetBytes(rows: seq<Row>, kept: seq<Row>, a: AccountId)
    requires Sorted(rows) && Sorted(kept) && forall r :: r in kept ==> r in rows
    ensures BytesOf(kept, a) <= BytesOf(rows, a) && Bytes(kept) <= Bytes(rows)
    decreases |rows|
  {
    if kept == [] {
    } else {
      assert kept[0] in rows;
      var drop := if kept[0] == rows[0] then kept[1..] else kept;
      forall r | r in drop ensures r in rows[1..] {
        assert r != rows[0] by {
          var k :| 0 <= k < |drop| && drop[k] == r;
          var j :| 0 <= j < |rows| && rows[j] == kept[0];
          assert drop == kept ==> kept[0].cursor <= kept[k].cursor;
          assert drop == kept[1..] ==> kept[0].cursor < kept[k + 1].cursor;
        }
        assert r in kept;
      }
      SubsetBytes(rows[1..], drop, a);
    }
  }

  lemma DropsKeepQuota(t: Tables, s: Tables, limits: Limits)
    requires Inv(t) && Inv(s) && OnlyDrops(t, s) && WithinQuota(t, limits)
    ensures WithinQuota(s, limits)
  {
    TotalUsage(t.usage, t.rows);
    TotalUsage(s.usage, s.rows);
    SubsetBytes(t.rows, s.rows, 0);
    forall a | a in s.usage ensures s.usage[a] <= limits.account {
      SubsetBytes(t.rows, s.rows, a);
      if a !in t.usage {
        NoRowsNoBytes(t.rows, a);
      }
    }
  }

  /** All stores of a run use the same limits. */
  predicate FixedLimits(op: RelayOp, limits: Limits) {
    op.Store? ==> op.limits == limits
  }

  lemma ApplyKeepsQuota(t: Tables, op: RelayOp, limits: Limits)
    requires Inv(t) && WithinQuota(t, limits) && FixedLimits(op, limits)
    ensures WithinQuota(Apply(t, op), limits)
  {
    ApplyKeepsInv(t, op);
    match op
    case Store(sender, device, envelopes, now, _, freeDisk) =>
      if Apply(t, op) != t {
        StoreKeepsQuota(t, sender, device, envelopes, now, limits, freeDisk);
      }
    case Acknowledge(from, id, now) =>
      var found := Lookup(t.rows, id);
      if found.Some? {
        AckRowRestamps(t, found.value, now);
      }
    case Retire(_, _) => DropsKeepQuota(t, Apply(t, op), limits);
    case Prune(c, cutoff, deliveredOnly) =>
      PruneRemovesTargets(t, c, cutoff, deliveredOnly);
      DropsKeepQuota(t, Apply(t, op), limits);
    case Membership(m) =>
      MembershipDrops(t, m);
      DropsKeepQuota(t, Apply(t, op), limits);
    case Aside(side) =>
      SideReshapes(t, side);
      DropsKeepQuota(t, Apply(t, op), limits);
  }

  /** Under fixed limits no run takes an account or the relay over its quota. */
  lemma {:induction false} RunKeepsQuota(t: Tables, ops: seq<RelayOp>, limits: Limits)
    requires Inv(t) && WithinQuota(t, limits) && forall op :: op in ops ==> FixedLimits(op, limits)
    ensures WithinQuota(Run(t, ops), limits)
    decreases |ops|
  {
    if ops == [] {
    } else {
      assert FixedLimits(ops[0], limits);
      ApplyKeepsInv(t, ops[0]);
      ApplyKeepsQuota(t, ops[0], limits);
      RunKeepsQuota(Apply(t, ops[0]), ops[1..], limits);
    }
  }
  /** From an empty relay no run takes an account or the relay over its quota. */
  lemma QuotaFromStart(ops: seq<RelayOp>, limits: Limits)
    requires forall op :: op in ops ==> FixedLimits(op, limits)
    ensures WithinQuota(Run(NO_TABLES, ops), limits)
  {
    EmptyIsSound();
    RunKeepsQuota(NO_TABLES, ops, limits);
  }
}
