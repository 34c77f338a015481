/**
 The relay's `Db`: each method runs its statements on a working copy, as a transaction does, and
 commits it by assigning `tables`; an early return leaves the committed tables alone.
 */
module RelayDb {
  import opened Ids
  import opened Sums
  import opened RelayTables
  import opened RelayIntegrity
  import opened RelayStore
  import opened RelayCleanup
  import Accepts = RelayAccepts
  import Receipts = RelayReceipts
  import Removals = RelayRemovals
  import Roster = RelayRoster
  import Runs = RelayRun

  datatype Result<+T, +E> = Ok(value: T) | Err(error: E)

  method SumUsage(usage: map<AccountId, int>) returns (total: int)
    ensures total == SumMap(usage)
  {
    total := 0;
    var rest := usage;
    while rest != map[]
      invariant total + SumMap(rest) == SumMap(usage)
      decreases |rest|
    {
      var a :| a in rest;
      SumRemove(rest, a);
      total := total + rest[a];
      rest := rest - {a};
    }
  }

  function Prepend(front: Destinations, o: Option<(Tables, Destinations)>): Option<(Tables, Destinations)> {
    match o
    case None => None
    case Some((t, rest)) => Some((t, front + rest))
  }

  lemma PrependTwice(a: Destinations, b: Destinations, o: Option<(Tables, Destinations)>)
    ensures Prepend(a, Prepend(b, o)) == Prepend(a + b, o)
  {
    if o.Some? {
      assert a + (b + o.value.1) == a + b + o.value.1;
    }
  }

  lemma PrependNothing(o: Option<(Tables, Destinations)>)
    ensures Prepend([], o) == o
  {
    if o.Some? {
      assert [] + o.value.1 == o.value.1;
    }
  }

  /** What deleting an account amounts to, once all its statements have run. */
  lemma DeletionFacts(t: Tables, account: AccountId)
    requires Inv(t)
    ensures var s := DeleteUser(t, account, DELETE_STATEMENTS);
            Inv(s) && OthersUntouched(t, s, account) && NoTrace(s, account, DevicesOf(t, account))
  {
    DeleteUserKeepsInv(t, account);
    DeleteUserLeavesOthers(t, account);
    DeleteUserLeavesNoTrace(t, account);
  }

  lemma NextStatement(t: Tables, account: AccountId, step: nat)
    requires Inv(t) && step < DELETE_STATEMENTS
    ensures DeleteStatement(DeleteUser(t, account, step), account, step) == DeleteUser(t, account, step + 1)
    ensures ForeignKeys(DeleteUser(t, account, step + 1))
  {
    DeleteUserKeepsForeignKeys(t, account, step + 1);
  }

  /** The device leaves the waiting ones, joins the active ones unless it was revoked, and the revision moves on by one. */
  ghost predicate Promoted(t: Tables, s: Tables, account: AccountId, device: DeviceId) {
    && account in t.accounts && account in s.accounts && device in t.devices
    && s.accounts[account].revision == t.accounts[account].revision + 1
    && PendingDevices(s, account) == PendingDevices(t, account) - {device}
    && ActiveDevices(s, account) == ActiveDevices(t, account) + (if t.devices[device].revoked then {} else {device})
    && s == t.(accounts := s.accounts, devices := s.devices)
  }

  lemma ActivationFacts(t: Tables, account: AccountId, device: DeviceId, revision: nat)
    ensures var s := ActivateDevice(t, account, device, revision);
            s.Some? ==>
              && (Inv(t) ==> Inv(s.value))
              && (forall a :: Roster.Bounded(t, a) ==> Roster.Bounded(s.value, a))
              && Promoted(t, s.value, account, device)
  {
    var s := ActivateDevice(t, account, device, revision);
    if s.Some? {
      if Inv(t) {
        Runs.ActivateReshapes(t, account, device, revision);
        Runs.ReshapeKeepsInv(t, s.value);
      }
      forall a | Roster.Bounded(t, a) ensures Roster.Bounded(s.value, a) {
        Roster.ActivateKeepsBounds(t, account, device, revision, a);
      }
      Roster.ActivateSets(t, account, device, revision, account);
    }
  }

  lemma {:induction false} ActiveWiresSnoc(t: Tables, envelopes: seq<Wire>, e: Wire)
    ensures ActiveWires(t, envelopes + [e])
         == if IsActive(t, e.recipientAccount, e.recipientDevice) then ActiveWires(t, envelopes) + [e]
            else ActiveWires(t, envelopes)
  {
    if envelopes == [] {
    } else {
      assert (envelopes + [e])[1..] == envelopes[1..] + [e];
      ActiveWiresSnoc(t, envelopes[1..], e);
    }
  }

  lemma ActiveWiresNext(t: Tables, envelopes: seq<Wire>, i: nat)
    requires i < |envelopes|
    ensures ActiveWires(t, envelopes[..i + 1])
         == if IsActive(t, envelopes[i].recipientAccount, envelopes[i].recipientDevice)
            then ActiveWires(t, envelopes[..i]) + [envelopes[i]]
            else ActiveWires(t, envelopes[..i])
  {
    assert envelopes[..i + 1] == envelopes[..i] + [envelopes[i]];
    ActiveWiresSnoc(t, envelopes[..i], envelopes[i]);
  }

  lemma CleanupAllAccounts(t: Tables, cutoff: int)
    requires Inv(t)
    ensures |t.rows| == |CleanupAll(t, cutoff).rows| + |ExpiredRows(t.rows, cutoff)|
    ensures Bytes(t.rows) == Bytes(CleanupAll(t, cutoff).rows) + Bytes(ExpiredRows(t.rows, cutoff))
  {
    var n := |ExpiredRows(t.rows, cutoff)|;
    BatchSkips(t.rows, cutoff, n);
    SkipLeaves(t.rows, cutoff, n);
  }

  lemma StoreFacts(
    t: Tables, sender: AccountId, device: DeviceId, envelopes: seq<Wire>, now: int, limits: Limits, freeDisk: nat)
    requires Inv(t)
    ensures match StoreEnvelopes(t, sender, device, envelopes, now, limits, freeDisk)
            case Stored(s, _) =>
              && (exists peer :: Accepts.Welcome(t, sender, device, envelopes, peer, limits, freeDisk))
              && (Session(t, sender, device) ==> Accepts.AddedRows(t, s, sender, device, envelopes, now))
            case Refused(error) =>
              && (forall peer :: !Accepts.Welcome(t, sender, device, envelopes, peer, limits, freeDisk))
              && Accepts.Reason(t, sender, device, envelopes, limits, freeDisk, error)
  {
    Accepts.AcceptsExactly(t, sender, device, envelopes, now, limits, freeDisk);
    if StoreEnvelopes(t, sender, device, envelopes, now, limits, freeDisk).Refused? {
      Accepts.RefusalReason(t, sender, device, envelopes, now, limits, freeDisk);
    } else if Session(t, sender, device) {
      Accepts.AcceptedRows(t, sender, device, envelopes, now, limits, freeDisk);
    }
  }

  lemma AckFacts(t: Tables, device: DeviceId, id: EnvelopeId, now: int)
    ensures var (s, notify) := Ack(t, device, id, now);
            Inv(t) ==>
              && (notify.None? ==> s == t)
              && (notify.Some? <==> exists r :: r in t.rows && Receipts.Meant(r, device, id))
              && (forall r :: r in t.rows && Receipts.Meant(r, device, id) ==>
                    notify == Some((r.senderAccount, r.wire.logicalId)) && Receipts.Recorded(t, s, r, now))
  {
    if Inv(t) {
      forall r | r in t.rows && Receipts.Meant(r, device, id)
        ensures Ack(t, device, id, now).1 == Some((r.senderAccount, r.wire.logicalId))
        ensures Receipts.Recorded(t, Ack(t, device, id, now).0, r, now)
      {
        Receipts.AckNotifiesExactly(t, device, id, now, r.senderAccount, r.wire.logicalId);
        Receipts.AckRecordsExactly(t, device, id, now, r);
        Receipts.AckMarksExactly(t, device, id, now);
      }
      if Ack(t, device, id, now).1.Some? {
        var (a, l) := Ack(t, device, id, now).1.value;
        Receipts.AckNotifiesExactly(t, device, id, now, a, l);
      }
    }
  }

  class Db {
    var tables: Tables

    constructor (t: Tables)
      ensures tables == t
    {
      tables := t;
    }

    method StoreEnvelopes(
      sender: AccountId, device: DeviceId, envelopes: seq<Wire>, now: int, limits: Limits, freeDisk: nat)
      returns (r: Result<Destinations, StoreError>)
      modifies this
      ensures
        match RelayTables.StoreEnvelopes(old(tables), sender, device, envelopes, now, limits, freeDisk)
        case Stored(t, destinations) => tables == t && r == Ok(destinations)
        case Refused(error) => tables == old(tables) && r == Err(error)
      ensures r.Ok? <==> Acceptable(old(tables), sender, device, envelopes, now, limits, freeDisk)
      ensures Inv(old(tables)) && Session(old(tables), sender, device) ==> Inv(tables)
      ensures WithinQuota(old(tables), limits) ==> WithinQuota(tables, limits)
      ensures Inv(old(tables)) ==>
                (r.Ok? <==> exists peer :: Accepts.Welcome(old(tables), sender, device, envelopes, peer, limits, freeDisk))
      ensures Inv(old(tables)) && r.Err? ==>
                Accepts.Reason(old(tables), sender, device, envelopes, limits, freeDisk, r.error)
      ensures Inv(old(tables)) && Session(old(tables), sender, device) && r.Ok? ==>
                Accepts.AddedRows(old(tables), tables, sender, device, envelopes, now)
    {
      StoreAcceptsExactly(tables, sender, device, envelopes, now, limits, freeDisk);
      if Inv(tables) {
        StoreFacts(tables, sender, device, envelopes, now, limits, freeDisk);
      }
      ghost var outcome := RelayTables.StoreEnvelopes(tables, sender, device, envelopes, now, limits, freeDisk);
      if outcome.Stored? {
        if Inv(tables) && Session(tables, sender, device) {
          StoreKeepsInv(tables, sender, device, envelopes, now, limits, freeDisk);
        }
        if WithinQuota(tables, limits) {
          StoreKeepsQuota(tables, sender, device, envelopes, now, limits, freeDisk);
        }
      }
      r := RunStore(sender, device, envelopes, now, limits, freeDisk);
    }

    method RunStore(
      sender: AccountId, device: DeviceId, envelopes: seq<Wire>, now: int, limits: Limits, freeDisk: nat)
      returns (r: Result<Destinations, StoreError>)
      modifies this
      ensures
        match RelayTables.StoreEnvelopes(old(tables), sender, device, envelopes, now, limits, freeDisk)
        case Stored(t, destinations) => tables == t && r == Ok(destinations)
        case Refused(error) => tables == old(tables) && r == Err(error)
    {
      var bad := CheckBatch(sender, envelopes);
      if bad.Some? {
        return Err(bad.value);
      }
      if freeDisk < limits.freeDisk {
        return Err(DiskPressure);
      }
      var id := envelopes[0].logicalId;
      var wanted := NewLogical(sender, device, envelopes, now);
      var ensured := EnsureLogical(tables, id, wanted);
      if ensured.None? {
        return Err(ForeignKey);
      }
      var tx := ensured.value;
      if !SameMetadata(tx.logical[id], wanted) {
        return Err(LogicalConflict);
      }
      var active := SelectActive(tx, envelopes);
      var stored := StoreActive(tx, sender, device, wanted.peer, active, now, limits);
      match stored {
        case Stored(t, destinations) =>
          tables := t;
          return Ok(destinations);
        case Refused(error) =>
          return Err(error);
      }
    }

    static method SelectActive(tx: Tables, envelopes: seq<Wire>) returns (active: seq<Wire>)
      ensures active == ActiveWires(tx, envelopes)
    {
      active := [];
      for i := 0 to |envelopes|
        invariant active == ActiveWires(tx, envelopes[..i])
      {
        ActiveWiresNext(tx, envelopes, i);
        var e := envelopes[i];
        if IsActive(tx, e.recipientAccount, e.recipientDevice) {
          active := active + [e];
        }
      }
      assert envelopes[..|envelopes|] == envelopes;
    }

    static method StoreActive(
      start: Tables, sender: AccountId, device: DeviceId, peer: AccountId, active: seq<Wire>, now: int, limits: Limits)
      returns (r: StoreOutcome)
      ensures r == StoreInto(start, sender, device, peer, active, now, limits)
    {
      if !PeerReached(sender, peer, active) {
        return Refused(RecipientUnavailable);
      }
      var additional := AddedBytes(start.rows, active);
      if additional.None? {
        return Refused(EnvelopeConflict);
      }
      var total := SumUsage(start.usage);
      if UsageOf(start.usage, sender) + additional.value > limits.account {
        return Refused(AccountQuota);
      }
      if total + additional.value > limits.total {
        return Refused(TotalQuota);
      }
      var tx, stored := start, [];
      PrependNothing(InsertAll(start, sender, device, active, now));
      assert active[0..] == active;
      for i := 0 to |active|
        invariant InsertAll(start, sender, device, active, now)
               == Prepend(stored, InsertAll(tx, sender, device, active[i..], now))
      {
        assert active[i..][1..] == active[i + 1..] && active[i..][0] == active[i];
        ghost var before := stored;
        var one := InsertOne(tx, sender, device, active[i], now);
        if one.None? {
          return Refused(EnvelopeConflict);
        }
        stored := stored + [(active[i].recipientDevice, one.value.1)];
        tx := one.value.0;
        PrependTwice(before, [(active[i].recipientDevice, one.value.1)], InsertAll(tx, sender, device, active[i + 1..], now));
      }
      r := Stored(tx, stored);
    }

    static method AddedBytes(rows: seq<Row>, active: seq<Wire>) returns (additional: Option<nat>)
      ensures additional == Additional(rows, active)
    {
      var sum := 0;
      for i := 0 to |active|
        invariant Additional(rows, active)
          == match Additional(rows, active[i..]) case Some(n) => Some(sum + n) case None => None
      {
        assert active[i..][1..] == active[i + 1..] && active[i..][0] == active[i];
        var existing := Lookup(rows, active[i].envelopeId);
        if existing.None? {
          sum := sum + |active[i].ciphertext|;
        } else if existing.value.wire.ciphertext != active[i].ciphertext {
          return None;
        }
      }
      additional := Some(sum);
    }

    method Ack(device: DeviceId, id: EnvelopeId, now: int) returns (notify: Option<(AccountId, LogicalId)>)
      modifies this
      ensures (tables, notify) == RelayTables.Ack(old(tables), device, id, now)
      ensures Inv(old(tables)) ==> Inv(tables)
      ensures Inv(old(tables)) && notify.None? ==> tables == old(tables)
      ensures Inv(old(tables)) ==>
                (notify.Some? <==> exists r :: r in old(tables).rows && Receipts.Meant(r, device, id))
      ensures forall r :: Inv(old(tables)) && r in old(tables).rows && Receipts.Meant(r, device, id) ==>
                notify == Some((r.senderAccount, r.wire.logicalId)) && Receipts.Recorded(old(tables), tables, r, now)
    {
      AckFacts(tables, device, id, now);
      if Inv(tables) {
        AckKeepsInv(tables, device, id, now);
      }
      var found := Lookup(tables.rows, id);
      if found.None? || found.value.wire.recipientDevice != device {
        return None;
      }
      var row := found.value;
      var tx := tables.(rows := MarkDelivered(tables.rows, device, id, now));
      tx := tx.(logical := StampLogical(tx.logical, row.wire.logicalId, now));
      tx := AddUpdate(tx, row.senderAccount, row.wire.logicalId, now);
      tables := tx;
      notify := Some((row.senderAccount, row.wire.logicalId));
    }

    static method SumBytes(rows: seq<Row>) returns (sum: nat)
      ensures sum == Bytes(rows)
    {
      sum := 0;
      for i := 0 to |rows|
        invariant sum + Bytes(rows[i..]) == Bytes(rows)
      {
        assert rows[i..][1..] == rows[i + 1..];
        sum := sum + |rows[i].wire.ciphertext|;
      }
    }

    /** One cleanup transaction: it removes only expired rows, and reports exactly what is gone. */
    method CleanupDelivered(cutoff: int, limit: nat) returns (stats: CleanupStats)
      requires Inv(tables)
      modifies this
      ensures tables == RelayTables.CleanupDelivered(old(tables), cutoff, limit) && Inv(tables)
      ensures Accounts(old(tables), tables, stats)
      ensures stats.envelopes == |Removed(old(tables), cutoff, limit)|
      ensures forall r :: r in old(tables.rows) && r !in tables.rows ==> Expired(r, cutoff)
    {
      CleanupDeliveredKeepsInv(tables, cutoff, limit);
      BatchAccounts(tables, cutoff, limit);
      var removed := Take(ExpiredRows(tables.rows, cutoff), Clamp(limit, 1, 10_000));
      var bytes := SumBytes(removed);
      var deleted := DeleteRows(tables, Cursors(removed));
      var purged := PurgeOrphans(deleted);
      stats := CleanupStats(|removed|, bytes, |deleted.logical| - |purged.logical|, |deleted.updates| - |purged.updates|);
      tables := purged;
    }

    /** The preview of the storage cleanup command. */
    method Preview(cutoff: int) returns (envelopes: nat, bytes: nat)
      ensures envelopes == |ExpiredRows(tables.rows, cutoff)|
      ensures bytes == Bytes(ExpiredRows(tables.rows, cutoff))
    {
      var selected := ExpiredRows(tables.rows, cutoff);
      bytes := SumBytes(selected);
      envelopes := |selected|;
    }

    /**
     The confirmed storage cleanup, with no concurrent writer: batches of 1000 until one is short
     remove exactly what the preview announced, and amount to one unbounded cleanup.
     */
    method CleanupStorage(cutoff: int) returns (total: CleanupStats)
      requires Inv(tables)
      modifies this
      ensures tables == CleanupAll(old(tables), cutoff) && Inv(tables)
      ensures Accounts(old(tables), tables, total)
      ensures total.envelopes == |ExpiredRows(old(tables.rows), cutoff)|
      ensures total.bytes == Bytes(ExpiredRows(old(tables.rows), cutoff))
      ensures forall r :: r in tables.rows <==> r in old(tables.rows) && !Expired(r, cutoff)
    {
      CleanupAllKeepsTheRest(tables, cutoff);
      CleanupAllAccounts(tables, cutoff);
      total := CleanupBatches(cutoff);
    }

    method CleanupBatches(cutoff: int) returns (total: CleanupStats)
      requires Inv(tables)
      modifies this
      ensures tables == CleanupAll(old(tables), cutoff) && Inv(tables)
      ensures Accounts(old(tables), tables, total)
    {
      total := NOTHING;
      while true
        invariant Inv(tables) && Accounts(old(tables), tables, total)
        invariant CleanupAll(tables, cutoff) == CleanupAll(old(tables), cutoff)
        decreases |tables.rows|
      {
        BatchThenAll(tables, cutoff, 1000);
        ghost var before := tables;
        var batch := CleanupDelivered(cutoff, 1000);
        total := Plus(total, batch);
        if batch.envelopes < 1000 {
          break;
        }
      }
    }

    method CleanupRevokedDevice(device: DeviceId)
      modifies this
      ensures tables == CleanupRevoked(old(tables), device)
      ensures Inv(old(tables)) ==> Inv(tables) && Removals.Emptied(old(tables), tables, device)
    {
      if Inv(tables) {
        Removals.CleanupEmptiesExactly(tables, device);
        CleanupRevokedKeepsInv(tables, device);
      }
      var tx := tables.(prekeys := set k | k in tables.prekeys && k.device != device);
      tx := DeleteRows(tx, set r | r in tx.rows && r.wire.recipientDevice == device :: r.cursor);
      tables := PurgeOrphans(tx);
    }

    method PruneConversation(conversation: Conversation, cutoff: int, deliveredOnly: bool)
      modifies this
      ensures tables == RelayTables.PruneConversation(old(tables), conversation, cutoff, deliveredOnly)
      ensures Inv(old(tables)) ==>
                Inv(tables) && Removals.PrunedFrom(old(tables), tables, conversation, cutoff, deliveredOnly)
    {
      if Inv(tables) {
        Removals.PrunesExactly(tables, conversation, cutoff, deliveredOnly);
        PruneKeepsInv(tables, conversation, cutoff, deliveredOnly);
      }
      var tx := tables;
      tx := tx.(updates := DropUpdates(tx.updates, PruneTargets(tx, conversation, cutoff, deliveredOnly), None));
      tx := DeleteRows(tx, RowsOf(tx.rows, PruneTargets(tx, conversation, cutoff, deliveredOnly)));
      tx := tx.(logical := DropDead(tx.logical, conversation, cutoff, LiveIds(tx.rows)));
      tables := tx;
    }

    /** delete_user_records: the foreign keys hold after every statement, so none of them fails. */
    method DeleteUserRecords(account: AccountId)
      requires Inv(tables)
      modifies this
      ensures tables == DeleteUser(old(tables), account, DELETE_STATEMENTS)
      ensures Inv(tables)
      ensures OthersUntouched(old(tables), tables, account)
      ensures NoTrace(tables, account, DevicesOf(old(tables), account))
    {
      DeletionFacts(tables, account);
      var tx := tables;
      for step := 0 to DELETE_STATEMENTS
        invariant tx == DeleteUser(tables, account, step) && tables == old(tables)
        invariant ForeignKeys(tx)
      {
        NextStatement(tables, account, step);
        tx := DeleteStatement(tx, account, step);
      }
      tables := tx;
    }

    /** activate_device: one transaction, refused on a stale revision or a device that is not pending. */
    method ActivateDevice(account: AccountId, device: DeviceId, revision: nat) returns (ok: bool)
      modifies this
      ensures match RelayTables.ActivateDevice(old(tables), account, device, revision)
              case Some(t) => ok && tables == t
              case None => !ok && tables == old(tables)
      ensures var t := old(tables);
              ok <==> && account in t.accounts && revision == t.accounts[account].revision + 1
                      && device in t.devices && t.devices[device].account == account && t.devices[device].pending
      ensures Inv(old(tables)) ==> Inv(tables)
      ensures forall a :: Roster.Bounded(old(tables), a) ==> Roster.Bounded(tables, a)
      ensures ok ==> Promoted(old(tables), tables, account, device)
    {
      ActivationFacts(tables, account, device, revision);
      var tx := tables;
      if account !in tx.accounts || revision != tx.accounts[account].revision + 1 {
        return false;
      }
      if device !in tx.devices || tx.devices[device].account != account || !tx.devices[device].pending {
        return false;
      }
      tx := tx.(devices := tx.devices[device := tx.devices[device].(pending := false)]);
      tx := tx.(accounts := tx.accounts[account := tx.accounts[account].(revision := revision)]);
      tables := tx;
      ok := true;
    }
  }
}
