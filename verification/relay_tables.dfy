/**
 The relay's database: its tables as values, and each SQL transaction as a function from tables to
 tables. Class `RelayDb.Db` runs these transactions step by step. Triggers are part of the statements
 that fire them, and an AUTOINCREMENT key is a counter that is never reused. A transaction that a
 constraint or a check aborts is `None` or `Refused`, and leaves the tables it started from.
 */
module RelayTables {
  import opened Ids
  import opened Sums

  const MAX_BATCH := 16
  const MAX_FRAME_BYTES := 256 * 1024

  datatype Account = Account(active: bool, master: Option<nat>, revision: nat)

  datatype Device = Device(account: AccountId, pending: bool, revoked: bool)

  datatype Prekey = Prekey(device: DeviceId, key: nat)

  datatype PairingEvent = PairingEvent(sender: DeviceId, target: DeviceId)

  datatype Logical = Logical(
    senderAccount: AccountId,
    senderDevice: DeviceId,
    peer: AccountId,
    conversation: Conversation,
    sentAt: int,
    acceptedAt: int,
    deliveredAt: Option<int>)

  // A row of `envelopes`: the wire envelope, who sent it, and what the relay added.
  datatype Row = Row(
    cursor: nat,
    wire: Wire,
    senderAccount: AccountId,
    senderDevice: DeviceId,
    acceptedAt: int,
    deliveredAt: Option<int>)

  datatype Update = Update(cursor: nat, account: AccountId, logicalId: LogicalId, deliveredAt: int)

  // `rows` and `updates` are kept in insertion order, which is AUTOINCREMENT cursor order.
  datatype Tables = Tables(
    accounts: map<AccountId, Account>,
    devices: map<DeviceId, Device>,
    prekeys: set<Prekey>,
    logical: map<LogicalId, Logical>,
    rows: seq<Row>,
    updates: seq<Update>,
    events: map<nat, PairingEvent>,
    usage: map<AccountId, int>,
    nextCursor: nat,
    nextUpdate: nat)

  // A relay that has just been installed.
  const NO_TABLES := Tables(map[], map[], {}, map[], [], [], map[], map[], 1, 1)

  datatype Limits = Limits(account: nat, total: nat, freeDisk: nat)

  datatype StoreError =
    | BadBatchSize | MixedLogical | ManyPeers | InvalidEnvelope | DiskPressure
    | ForeignKey | LogicalConflict | RecipientUnavailable | EnvelopeConflict
    | AccountQuota | TotalQuota

  type Destinations = seq<(DeviceId, nat)>

  datatype StoreOutcome =
    | Stored(tables: Tables, destinations: Destinations)
    | Refused(error: StoreError)

  // ----- store_envelopes -----

  /** The one other account a batch is addressed to, or the sender itself. */
  function PeerOf(sender: AccountId, envelopes: seq<Wire>): AccountId {
    if envelopes == [] then sender
    else if envelopes[0].recipientAccount != sender then envelopes[0].recipientAccount
    else PeerOf(sender, envelopes[1..])
  }

  function CheckBatch(sender: AccountId, envelopes: seq<Wire>): Option<StoreError> {
    if |envelopes| == 0 || |envelopes| > MAX_BATCH then Some(BadBatchSize)
    else if envelopes[0].logicalId == EMPTY_ID
         || (exists e :: e in envelopes && e.logicalId != envelopes[0].logicalId) then
      Some(MixedLogical)
    else
      var peer := PeerOf(sender, envelopes);
      if exists e :: e in envelopes && e.recipientAccount != sender && e.recipientAccount != peer then
        Some(ManyPeers)
      else if exists e :: e in envelopes && !ValidWire(e, ConversationOf(sender, peer)) then
        Some(InvalidEnvelope)
      else None
  }

  predicate ValidWire(e: Wire, expected: Conversation) {
    e.conversation == expected && 0 < |e.ciphertext| <= MAX_FRAME_BYTES
  }

  function NewLogical(sender: AccountId, device: DeviceId, envelopes: seq<Wire>, now: int): Logical
    requires envelopes != []
  {
    var peer := PeerOf(sender, envelopes);
    Logical(sender, device, peer, ConversationOf(sender, peer), envelopes[0].sentAt, now, None)
  }

  predicate SameMetadata(a: Logical, b: Logical) {
    a.senderAccount == b.senderAccount && a.senderDevice == b.senderDevice && a.peer == b.peer
    && a.conversation == b.conversation && a.sentAt == b.sentAt
  }

  /** INSERT OR IGNORE into logical_messages; OR IGNORE does not cover foreign keys. */
  function EnsureLogical(t: Tables, id: LogicalId, l: Logical): Option<Tables> {
    if id in t.logical then Some(t)
    else if l.senderAccount !in t.accounts || l.senderDevice !in t.devices || l.peer !in t.accounts then None
    else Some(t.(logical := t.logical[id := l]))
  }

  predicate IsActive(t: Tables, account: AccountId, device: DeviceId) {
    && device in t.devices && t.devices[device].account == account
    && !t.devices[device].pending && !t.devices[device].revoked
    && account in t.accounts && t.accounts[account].active
  }

  /** The envelopes of a batch whose recipient device is active. */
  function ActiveWires(t: Tables, envelopes: seq<Wire>): (active: seq<Wire>)
    ensures forall e :: e in active <==> e in envelopes && IsActive(t, e.recipientAccount, e.recipientDevice)
  {
    if envelopes == [] then []
    else
      var e := envelopes[0];
      (if IsActive(t, e.recipientAccount, e.recipientDevice) then [e] else []) + ActiveWires(t, envelopes[1..])
  }

  /** The stored row with a given envelope id. */
  function Lookup(rows: seq<Row>, id: EnvelopeId): (r: Option<Row>)
    ensures r.Some? ==> r.value in rows && r.value.wire.envelopeId == id
    ensures r.None? ==> forall row :: row in rows ==> row.wire.envelopeId != id
  {
    if rows == [] then None
    else if rows[0].wire.envelopeId == id then Some(rows[0])
    else Lookup(rows[1..], id)
  }

  /** Ciphertext bytes a batch would add, or None when an id is taken by other ciphertext. */
  function Additional(rows: seq<Row>, active: seq<Wire>): Option<nat> {
    if active == [] then Some(0)
    else
      match Lookup(rows, active[0].envelopeId)
      case Some(row) => if row.wire.ciphertext == active[0].ciphertext then Additional(rows, active[1..]) else None
      case None =>
        match Additional(rows, active[1..])
        case Some(n) => Some(|active[0].ciphertext| + n)
        case None => None
  }

  function UsageOf(usage: map<AccountId, int>, account: AccountId): int {
    if account in usage then usage[account] else 0
  }

  /** Trigger envelopes_storage_usage_insert. */
  function Charge(usage: map<AccountId, int>, row: Row): map<AccountId, int> {
    usage[row.senderAccount := UsageOf(usage, row.senderAccount) + |row.wire.ciphertext|]
  }

  /** Trigger envelopes_storage_usage_delete. */
  function Refund(usage: map<AccountId, int>, row: Row): map<AccountId, int> {
    if row.senderAccount !in usage then usage
    else
      var rest := usage[row.senderAccount] - |row.wire.ciphertext|;
      usage[row.senderAccount := if rest < 0 then 0 else rest]
  }

  function NewRow(t: Tables, sender: AccountId, device: DeviceId, e: Wire, now: int): Row {
    Row(t.nextCursor, e, sender, device, now, None)
  }

  function InsertRow(t: Tables, row: Row): Tables {
    t.(rows := t.rows + [row], usage := Charge(t.usage, row), nextCursor := t.nextCursor + 1)
  }

  predicate Persisted(row: Row, sender: AccountId, device: DeviceId, e: Wire) {
    row.wire == e && row.senderAccount == sender && row.senderDevice == device
  }

  /** INSERT OR IGNORE one envelope, then read it back and compare; None is a conflict. */
  function InsertOne(t: Tables, sender: AccountId, device: DeviceId, e: Wire, now: int): Option<(Tables, nat)> {
    match Lookup(t.rows, e.envelopeId)
    case Some(row) => if Persisted(row, sender, device, e) then Some((t, row.cursor)) else None
    case None => Some((InsertRow(t, NewRow(t, sender, device, e, now)), t.nextCursor))
  }

  function InsertAll(t: Tables, sender: AccountId, device: DeviceId, active: seq<Wire>, now: int)
    : Option<(Tables, Destinations)>
    decreases |active|
  {
    if active == [] then Some((t, []))
    else
      match InsertOne(t, sender, device, active[0], now)
      case None => None
      case Some((t1, cursor)) =>
        match InsertAll(t1, sender, device, active[1..], now)
        case None => None
        case Some((t2, rest)) => Some((t2, [(active[0].recipientDevice, cursor)] + rest))
  }

  predicate PeerReached(sender: AccountId, peer: AccountId, active: seq<Wire>) {
    active != [] && (peer == sender || exists e :: e in active && e.recipientAccount == peer)
  }

  ghost function StoreEnvelopes(
    t: Tables, sender: AccountId, device: DeviceId, envelopes: seq<Wire>, now: int, limits: Limits, freeDisk: nat)
    : StoreOutcome
  {
    var bad := CheckBatch(sender, envelopes);
    if bad.Some? then Refused(bad.value)
    else if freeDisk < limits.freeDisk then Refused(DiskPressure)
    else
      var id := envelopes[0].logicalId;
      var wanted := NewLogical(sender, device, envelopes, now);
      match EnsureLogical(t, id, wanted)
      case None => Refused(ForeignKey)
      case Some(tx) =>
        if !SameMetadata(tx.logical[id], wanted) then Refused(LogicalConflict)
        else StoreInto(tx, sender, device, wanted.peer, ActiveWires(tx, envelopes), now, limits)
  }

  /** The rest of the transaction, once the logical message exists and agrees. */
  ghost function StoreInto(
    tx: Tables, sender: AccountId, device: DeviceId, peer: AccountId, active: seq<Wire>, now: int, limits: Limits)
    : StoreOutcome
  {
    if !PeerReached(sender, peer, active) then Refused(RecipientUnavailable)
    else
      match Additional(tx.rows, active)
      case None => Refused(EnvelopeConflict)
      case Some(extra) =>
        if UsageOf(tx.usage, sender) + extra > limits.account then Refused(AccountQuota)
        else if SumMap(tx.usage) + extra > limits.total then Refused(TotalQuota)
        else
          match InsertAll(tx, sender, device, active, now)
          case None => Refused(EnvelopeConflict)
          case Some((done, destinations)) => Stored(done, destinations)
  }

  // ----- sync and ack -----

  function Queue(rows: seq<Row>, device: DeviceId, after: nat): (q: seq<Row>)
    ensures forall r :: r in q <==> r in rows && r.wire.recipientDevice == device && r.cursor > after
  {
    if rows == [] then []
    else
      (if rows[0].wire.recipientDevice == device && rows[0].cursor > after then [rows[0]] else [])
      + Queue(rows[1..], device, after)
  }

  function Take<T>(s: seq<T>, n: nat): seq<T> {
    if |s| <= n then s else s[..n]
  }

  function Clamp(x: nat, low: nat, high: nat): nat
    requires low <= high
  {
    if x < low then low else if x > high then high else x
  }

  function UpdatesFor(updates: seq<Update>, account: AccountId, after: nat): seq<Update> {
    if updates == [] then []
    else
      (if updates[0].account == account && updates[0].cursor > after then [updates[0]] else [])
      + UpdatesFor(updates[1..], account, after)
  }

  function LastCursor(rows: seq<Row>, otherwise: nat): nat {
    if rows == [] then otherwise else rows[|rows| - 1].cursor
  }

  datatype Batch = Batch(rows: seq<Row>, nextCursor: nat, hasMore: bool, statuses: seq<Update>, nextStatus: nat)

  /** The reply to a SyncRequest. */
  function Sync(t: Tables, account: AccountId, device: DeviceId, after: nat, statusAfter: nat, limit: nat): Batch {
    var n := Clamp(limit, 1, 200);
    var all := Take(Queue(t.rows, device, after), n + 1);
    var rows := Take(all, n);
    var statuses := Take(UpdatesFor(t.updates, account, statusAfter), 200);
    Batch(rows, if rows == [] then after else rows[|rows| - 1].cursor, |all| > n,
          statuses, if statuses == [] then statusAfter else statuses[|statuses| - 1].cursor)
  }

  /** The one-envelope batch pushed to a live connection right after a store. */
  function PushOf(row: Row): Batch {
    Batch([row], row.cursor, false, [], 0)
  }

  function OrElse(o: Option<int>, now: int): Option<int> {
    if o.Some? then o else Some(now)
  }

  predicate Acked(row: Row, device: DeviceId, id: EnvelopeId) {
    row.wire.envelopeId == id && row.wire.recipientDevice == device
  }

  function MarkDelivered(rows: seq<Row>, device: DeviceId, id: EnvelopeId, now: int): (marked: seq<Row>)
    ensures |marked| == |rows|
    ensures forall i :: 0 <= i < |rows| ==>
      marked[i] == (if Acked(rows[i], device, id) then rows[i].(deliveredAt := OrElse(rows[i].deliveredAt, now)) else rows[i])
  {
    if rows == [] then []
    else
      [if Acked(rows[0], device, id) then rows[0].(deliveredAt := OrElse(rows[0].deliveredAt, now)) else rows[0]]
      + MarkDelivered(rows[1..], device, id, now)
  }

  function AddUpdate(t: Tables, account: AccountId, id: LogicalId, now: int): Tables {
    if exists u :: u in t.updates && u.account == account && u.logicalId == id then t
    else t.(updates := t.updates + [Update(t.nextUpdate, account, id, now)], nextUpdate := t.nextUpdate + 1)
  }

  function StampLogical(logical: map<LogicalId, Logical>, id: LogicalId, now: int): map<LogicalId, Logical> {
    if id !in logical then logical
    else logical[id := logical[id].(deliveredAt := OrElse(logical[id].deliveredAt, now))]
  }

  function AckRow(t: Tables, row: Row, now: int): Tables {
    AddUpdate(
      t.(rows := MarkDelivered(t.rows, row.wire.recipientDevice, row.wire.envelopeId, now),
         logical := StampLogical(t.logical, row.wire.logicalId, now)),
      row.senderAccount, row.wire.logicalId, now)
  }

  /** The tables after ack, and the sender account and logical message to notify. */
  function Ack(t: Tables, device: DeviceId, id: EnvelopeId, now: int): (Tables, Option<(AccountId, LogicalId)>) {
    match Lookup(t.rows, id)
    case None => (t, None)
    case Some(row) =>
      if row.wire.recipientDevice != device then (t, None)
      else (AckRow(t, row, now), Some((row.senderAccount, row.wire.logicalId)))
  }

  // ----- deletions -----

  function Without(rows: seq<Row>, drop: set<nat>): (kept: seq<Row>)
    ensures forall r :: r in kept <==> r in rows && r.cursor !in drop
  {
    if rows == [] then []
    else (if rows[0].cursor in drop then [] else [rows[0]]) + Without(rows[1..], drop)
  }

  function RefundAll(usage: map<AccountId, int>, rows: seq<Row>, drop: set<nat>): map<AccountId, int> {
    if rows == [] then usage
    else RefundAll(if rows[0].cursor in drop then Refund(usage, rows[0]) else usage, rows[1..], drop)
  }

  /** DELETE FROM envelopes, with its trigger. */
  function DeleteRows(t: Tables, drop: set<nat>): Tables {
    t.(rows := Without(t.rows, drop), usage := RefundAll(t.usage, t.rows, drop))
  }

  function LiveIds(rows: seq<Row>): (ids: set<LogicalId>) {
    set r | r in rows :: r.wire.logicalId
  }

  function KeepUpdates(updates: seq<Update>, ids: set<LogicalId>): (kept: seq<Update>)
    ensures forall u :: u in kept <==> u in updates && u.logicalId in ids
  {
    if updates == [] then []
    else (if updates[0].logicalId in ids then [updates[0]] else []) + KeepUpdates(updates[1..], ids)
  }

  /** Delivery updates, then logical messages, that no envelope refers to any more. */
  function PurgeOrphans(t: Tables): Tables {
    var live := LiveIds(t.rows);
    t.(updates := KeepUpdates(t.updates, live),
       logical := map id | id in t.logical && id in live :: t.logical[id])
  }

  predicate Expired(row: Row, cutoff: int) {
    row.deliveredAt.Some? && row.deliveredAt.value < cutoff
  }

  /** The expired rows, oldest cursor first. */
  function ExpiredRows(rows: seq<Row>, cutoff: int): (expired: seq<Row>)
    ensures forall r :: r in expired <==> r in rows && Expired(r, cutoff)
  {
    if rows == [] then []
    else (if Expired(rows[0], cutoff) then [rows[0]] else []) + ExpiredRows(rows[1..], cutoff)
  }

  function Cursors(rows: seq<Row>): set<nat> {
    set r | r in rows :: r.cursor
  }

  function Bytes(rows: seq<Row>): nat {
    if rows == [] then 0 else |rows[0].wire.ciphertext| + Bytes(rows[1..])
  }

  function CleanupDelivered(t: Tables, cutoff: int, limit: nat): Tables {
    var n := Clamp(limit, 1, 10_000);
    PurgeOrphans(DeleteRows(t, Cursors(Take(ExpiredRows(t.rows, cutoff), n))))
  }

  function CleanupRevoked(t: Tables, device: DeviceId): Tables {
    var t1 := t.(prekeys := set k | k in t.prekeys && k.device != device);
    PurgeOrphans(DeleteRows(t1, set r | r in t.rows && r.wire.recipientDevice == device :: r.cursor))
  }

  /** Logical messages a prune selects. */
  function PruneTargets(t: Tables, conversation: Conversation, cutoff: int, deliveredOnly: bool): set<LogicalId> {
    set id | id in t.logical && t.logical[id].conversation == conversation && t.logical[id].acceptedAt < cutoff
             && (!deliveredOnly || forall r :: r in t.rows && r.wire.logicalId == id ==> r.deliveredAt.Some?)
  }

  function DropUpdates(updates: seq<Update>, ids: set<LogicalId>, account: Option<AccountId>): (kept: seq<Update>)
    ensures forall u :: u in kept <==> u in updates && u.logicalId !in ids && account != Some(u.account)
  {
    if updates == [] then []
    else
      (if updates[0].logicalId in ids || account == Some(updates[0].account) then [] else [updates[0]])
      + DropUpdates(updates[1..], ids, account)
  }

  function RowsOf(rows: seq<Row>, ids: set<LogicalId>): set<nat> {
    set r | r in rows && r.wire.logicalId in ids :: r.cursor
  }

  function PruneConversation(t: Tables, conversation: Conversation, cutoff: int, deliveredOnly: bool): Tables {
    var t1 := t.(updates := DropUpdates(t.updates, PruneTargets(t, conversation, cutoff, deliveredOnly), None));
    var ids := PruneTargets(t1, conversation, cutoff, deliveredOnly);
    var t2 := DeleteRows(t1, RowsOf(t1.rows, ids));
    t2.(logical := DropDead(t2.logical, conversation, cutoff, LiveIds(t2.rows)))
  }

  /** DELETE FROM logical_messages of a conversation, accepted before the cutoff, with no envelope left. */
  function DropDead(logical: map<LogicalId, Logical>, conversation: Conversation, cutoff: int, live: set<LogicalId>)
    : map<LogicalId, Logical>
  {
    map id | id in logical && !(logical[id].conversation == conversation && logical[id].acceptedAt < cutoff && id !in live)
      :: logical[id]
  }

  // ----- account deletion, one statement at a time -----

  function DevicesOf(t: Tables, account: AccountId): set<DeviceId> {
    set d | d in t.devices && t.devices[d].account == account
  }

  function LogicalOf(t: Tables, account: AccountId): set<LogicalId> {
    set id | id in t.logical && (t.logical[id].senderAccount == account || t.logical[id].peer == account)
  }

  const DELETE_STATEMENTS := 7

  function DeleteStatement(t: Tables, account: AccountId, step: nat): Tables {
    match step
    case 0 =>
      var mine := DevicesOf(t, account);
      t.(events := map i | i in t.events && t.events[i].sender !in mine && t.events[i].target !in mine :: t.events[i])
    case 1 => t.(updates := DropUpdates(t.updates, LogicalOf(t, account), Some(account)))
    case 2 =>
      var ids := LogicalOf(t, account);
      DeleteRows(t, set r | r in t.rows && (r.senderAccount == account || r.wire.recipientAccount == account
                                            || r.wire.logicalId in ids) :: r.cursor)
    case 3 =>
      var ids := LogicalOf(t, account);
      t.(logical := map id | id in t.logical && id !in ids :: t.logical[id])
    case 4 =>
      var mine := DevicesOf(t, account);
      t.(prekeys := set k | k in t.prekeys && k.device !in mine)
    case 5 =>
      var mine := DevicesOf(t, account);
      t.(devices := t.devices - mine)
    case 6 =>
      // account_storage_usage cascades
      t.(accounts := t.accounts - {account}, usage := t.usage - {account})
    case _ => t
  }

  /** The tables after the first `steps` statements of delete_user_records. */
  function DeleteUser(t: Tables, account: AccountId, steps: nat): Tables {
    if steps == 0 then t else DeleteStatement(DeleteUser(t, account, steps - 1), account, steps - 1)
  }

  // ----- device roster -----

  function ActiveDevices(t: Tables, account: AccountId): set<DeviceId> {
    set d | d in t.devices && t.devices[d].account == account && !t.devices[d].pending && !t.devices[d].revoked
  }

  function PendingDevices(t: Tables, account: AccountId): set<DeviceId> {
    set d | d in t.devices && t.devices[d].account == account && t.devices[d].pending && !t.devices[d].revoked
  }

  /** INSERT INTO devices; None is a primary-key or foreign-key error. */
  function InsertDevice(t: Tables, account: AccountId, device: DeviceId, pending: bool): Option<Tables> {
    if device in t.devices || account !in t.accounts then None
    else Some(t.(devices := t.devices[device := Device(account, pending, false)]))
  }

  function BootstrapMaster(t: Tables, account: AccountId, master: nat): Option<Tables> {
    if account !in t.accounts || t.accounts[account].master.Some? then None
    else Some(t.(accounts := t.accounts[account := t.accounts[account].(master := Some(master), revision := 1)]))
  }

  function ActivateDevice(t: Tables, account: AccountId, device: DeviceId, revision: nat): Option<Tables> {
    if account !in t.accounts || revision != t.accounts[account].revision + 1 then None
    else if device !in t.devices || t.devices[device].account != account || !t.devices[device].pending then None
    else Some(t.(devices := t.devices[device := t.devices[device].(pending := false)],
                 accounts := t.accounts[account := t.accounts[account].(revision := revision)]))
  }

  function SetRevoked(t: Tables, mine: set<DeviceId>): Tables {
    t.(devices := map d | d in t.devices :: if d in mine then t.devices[d].(revoked := true) else t.devices[d])
  }

  /** The transaction of reset_devices; revoked queues are cleaned afterwards, device by device. */
  function ResetDevices(t: Tables, account: AccountId): Tables {
    if account !in t.accounts then t
    else
      var mine := DevicesOf(t, account);
      SetRevoked(t, mine).(
        prekeys := (set k | k in t.prekeys && k.device !in mine),
        accounts := t.accounts[account := t.accounts[account].(master := None, revision := 0)])
  }
}
