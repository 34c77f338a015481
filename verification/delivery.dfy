/** One device and the relay over any run. */
module Delivery {
  // Requests, replies, pushes, acks and sends may be lost, late, repeated or reordered; other devices
  // and relay maintenance act in between; the client may stop at any point.

  import opened Ids
  import opened RelayTables
  import opened RelayIntegrity
  import Relay = RelayRun
  import opened LocalTables
  import opened ClientSync

  datatype Me = Me(account: AccountId, device: DeviceId)

  // Everything that may be under way. A reply remembers the cursor its request carried.
  datatype Packet =
    | Request(after: nat, statusAfter: nat)
    | Reply(after: nat, batch: Batch)
    | Push(row: Row)
    | AckOf(id: EnvelopeId)
    | Frame(envelopes: seq<Wire>)
    | Accepted(id: LogicalId)

  /**
   The relay's tables and the client's store, the packets that may still arrive, and what happened
   so far: rows committed here in order, messages composed here with their conversation, logical
   ids the relay stored for this device, and composed messages whose conversation was deleted since.
   */
  datatype World = World(
    tables: Tables,
    local: Local,
    net: set<Packet>,
    committed: seq<Row>,
    composed: map<LogicalId, Conversation>,
    accepted: set<LogicalId>,
    erased: set<LogicalId>)

  datatype Event =
    | Elsewhere(op: Relay.RelayOp)
    | RequestSync
    | ServeSync(after: nat, statusAfter: nat)
    | ServePush(row: Row)
    | HandleReply(after: nat, batch: Batch, verdicts: seq<Verdict>)
    | HandlePush(row: Row, verdict: Verdict)
    | ServeAck(id: EnvelopeId, now: int)
    | Compose(id: LogicalId, message: Message, frame: seq<Wire>)
    | ComposeControl(id: LogicalId, frame: seq<Wire>)
    | Resend(id: LogicalId)
    | ServeFrame(frame: seq<Wire>, now: int, limits: Limits, freeDisk: nat)
    | HandleAccepted(id: LogicalId, statements: nat)
    | DeleteHere(peer: AccountId, username: nat, syncId: LogicalId, deletedAt: int)
    | VerifyPeer(account: AccountId)
    | NoteDelivered(id: LogicalId)

  const SYNC_LIMIT := 100

  // ----- client steps -----

  /** Ids are random UUIDs: a new message's id is not in use on this device. */
  predicate Unused(w: World, id: LogicalId) {
    && id !in w.composed && id !in w.local.messages && id !in w.local.outbox
    && forall p :: p in w.local.tombstones ==> w.local.tombstones[p].syncId != id
  }

  /** A deletion event names the conversation of its peer, and no message composed here has its id. */
  predicate Plausible(me: Me, composed: map<LogicalId, Conversation>, v: Verdict) {
    v.Accept? && v.effect.Deletion? ==>
      v.effect.conversation == ConversationOf(me.account, v.effect.peer) && v.effect.syncId !in composed
  }

  predicate AllPlausible(me: Me, composed: map<LogicalId, Conversation>, verdicts: seq<Verdict>) {
    forall v :: v in verdicts ==> Plausible(me, composed, v)
  }

  function In(composed: map<LogicalId, Conversation>, c: Conversation): set<LogicalId> {
    set id | id in composed && composed[id] == c
  }

  /** Composed messages whose conversation one of these effects deletes. */
  function Gone(composed: map<LogicalId, Conversation>, effects: seq<Effect>): set<LogicalId> {
    set id | id in composed && exists e :: e in effects && e.Deletion? && e.conversation == composed[id]
  }

  function AckPackets(acks: seq<EnvelopeId>): set<Packet> {
    set id | id in acks :: AckOf(id)
  }

  function Handle(w: World, batch: Batch, verdicts: seq<Verdict>): World
    requires |verdicts| == |batch.rows|
  {
    var h := HandleBatch(w.local, batch, verdicts);
    w.(local := h.local,
       committed := w.committed + h.done,
       net := w.net + AckPackets(h.acks),
       erased := w.erased + Gone(w.composed, h.effects))
  }

  /** complete_outbox is three statements without a transaction; a crash may cut it short. */
  function CompleteStatements(t: Local, id: LogicalId, statements: nat): Local {
    var t1 := if statements >= 1 then t.(outbox := t.outbox - {id}) else t;
    var t2 := if statements >= 2 then MarkSynced(t1, id) else t1;
    if statements >= 3 then UpdateStatus(t2, id, Sent) else t2
  }

  lemma CompletedTwice(t: Local, id: LogicalId)
    ensures CompleteOutbox(CompleteOutbox(t, id), id) == CompleteOutbox(t, id)
  {
    var s := CompleteOutbox(t, id);
    assert s.outbox - {id} == s.outbox && Settle(s.tombstones, id) == s.tombstones;
    assert MarkSynced(s.(outbox := s.outbox - {id}), id) == s;
  }

  /** Wherever a crash cut it short, completing once more ends as if it had never been cut. */
  lemma CutCompletionResumes(t: Local, id: LogicalId, statements: nat)
    ensures CompleteStatements(CompleteStatements(t, id, statements), id, 3) == CompleteOutbox(t, id)
  {
    var removed := t.(outbox := t.outbox - {id});
    assert removed.outbox - {id} == removed.outbox;
    if statements == 2 {
      var settled := MarkSynced(removed, id);
      assert Settle(settled.tombstones, id) == settled.tombstones;
      assert MarkSynced(settled.(outbox := settled.outbox - {id}), id) == settled;
    } else if statements > 2 {
      CompletedTwice(t, id);
    }
  }

  // ----- relay steps on behalf of this device -----

  predicate Mine(me: Me, op: Relay.RelayOp) {
    (op.Acknowledge? || op.Store?) && op.device == me.device
  }

  ghost function ServeStore(me: Me, w: World, frame: seq<Wire>, now: int, limits: Limits, freeDisk: nat): World {
    if !IsActive(w.tables, me.account, me.device) then w
    else
      match StoreEnvelopes(w.tables, me.account, me.device, frame, now, limits, freeDisk)
      case Refused(_) => w
      case Stored(s, _) =>
        var id := if frame == [] then EMPTY_ID else frame[0].logicalId;
        w.(tables := s, net := w.net + {Accepted(id)}, accepted := w.accepted + {id})
  }

  ghost function DoElsewhere(me: Me, w: World, op: Relay.RelayOp): World {
    if Mine(me, op) then w else w.(tables := Relay.Apply(w.tables, op))
  }

  function DoServeSync(me: Me, w: World, after: nat, statusAfter: nat): World {
    if Request(after, statusAfter) !in w.net then w
    else w.(net := w.net + {Reply(after, Sync(w.tables, me.account, me.device, after, statusAfter, SYNC_LIMIT))})
  }

  function DoServePush(me: Me, w: World, row: Row): World {
    if row in w.tables.rows && row.wire.recipientDevice == me.device then w.(net := w.net + {Push(row)}) else w
  }

  ghost function DoServeAck(me: Me, w: World, id: EnvelopeId, now: int): World {
    if AckOf(id) !in w.net then w
    else w.(tables := Relay.Apply(w.tables, Relay.Acknowledge(me.device, id, now)))
  }

  ghost function DoServeFrame(me: Me, w: World, frame: seq<Wire>, now: int, limits: Limits, freeDisk: nat): World {
    if Frame(frame) !in w.net then w else ServeStore(me, w, frame, now, limits, freeDisk)
  }

  function DoHandleReply(me: Me, w: World, after: nat, batch: Batch, verdicts: seq<Verdict>): World {
    if Reply(after, batch) !in w.net || |verdicts| != |batch.rows| || !AllPlausible(me, w.composed, verdicts) then w
    else Handle(w, batch, verdicts)
  }

  function DoHandlePush(me: Me, w: World, row: Row, verdict: Verdict): World {
    if Push(row) !in w.net || !Plausible(me, w.composed, verdict) then w else Handle(w, PushOf(row), [verdict])
  }

  function DoCompose(w: World, id: LogicalId, m: Message, frame: seq<Wire>): World {
    if !Unused(w, id) then w
    else w.(local := CommitOutgoing(w.local, id, m, frame), composed := w.composed[id := m.conversation])
  }

  function DoComposeControl(w: World, id: LogicalId, frame: seq<Wire>): World {
    if id in w.composed then w else w.(local := CommitControlOutgoing(w.local, id, frame))
  }

  function DoResend(w: World, id: LogicalId): World {
    if id !in w.local.outbox then w else w.(net := w.net + {Frame(w.local.outbox[id])})
  }

  function DoHandleAccepted(w: World, id: LogicalId, statements: nat): World {
    if Accepted(id) !in w.net then w else w.(local := CompleteStatements(w.local, id, statements))
  }

  function DoDelete(me: Me, w: World, peer: AccountId, username: nat, syncId: LogicalId, at: int): World {
    var c := ConversationOf(me.account, peer);
    if syncId in w.composed then w
    else
      match DeleteEverywhere(w.local, peer, username, c, syncId, at)
      case None => w
      case Some(t) => w.(local := t, erased := w.erased + In(w.composed, c))
  }

  ghost function Step(me: Me, w: World, e: Event): World {
    match e
    case Elsewhere(op) => DoElsewhere(me, w, op)
    case RequestSync => w.(net := w.net + {Request(w.local.cursor, w.local.statusCursor)})
    case ServeSync(after, statusAfter) => DoServeSync(me, w, after, statusAfter)
    case ServePush(row) => DoServePush(me, w, row)
    case HandleReply(after, batch, verdicts) => DoHandleReply(me, w, after, batch, verdicts)
    case HandlePush(row, verdict) => DoHandlePush(me, w, row, verdict)
    case ServeAck(id, now) => DoServeAck(me, w, id, now)
    case Compose(id, m, frame) => DoCompose(w, id, m, frame)
    case ComposeControl(id, frame) => DoComposeControl(w, id, frame)
    case Resend(id) => DoResend(w, id)
    case ServeFrame(frame, now, limits, freeDisk) => DoServeFrame(me, w, frame, now, limits, freeDisk)
    case HandleAccepted(id, statements) => DoHandleAccepted(w, id, statements)
    case DeleteHere(peer, username, syncId, at) => DoDelete(me, w, peer, username, syncId, at)
    case VerifyPeer(account) => w.(local := VerifyContact(w.local, account))
    case NoteDelivered(id) => w.(local := UpdateStatus(w.local, id, Delivered))
  }

  ghost function Run(me: Me, w: World, events: seq<Event>): World
    decreases |events|
  {
    if events == [] then w else Run(me, Step(me, w, events[0]), events[1..])
  }

  // ----- what is kept -----

  /** The rows of a reply are all of the device's rows between the request's cursor and the last one. */
  ghost predicate ReplyOk(me: Me, t: Tables, cursor: nat, after: nat, batch: Batch) {
    && after <= cursor && batch.nextCursor < t.nextCursor
    && (forall i, j :: 0 <= i < j < |batch.rows| ==> batch.rows[i].cursor < batch.rows[j].cursor)
    && (forall r :: r in batch.rows ==> after < r.cursor <= batch.nextCursor)
    && (forall r :: r in t.rows && r.wire.recipientDevice == me.device && after < r.cursor <= batch.nextCursor ==>
          Relay.Known(batch.rows, r))
  }

  ghost predicate PushOk(t: Tables, row: Row) {
    row.cursor < t.nextCursor && forall r :: r in t.rows && r.cursor == row.cursor ==> Relay.SameRow(row, r)
  }

  /** An envelope with this id was committed here. */
  ghost predicate CommittedId(committed: seq<Row>, id: EnvelopeId) {
    exists c :: c in committed && c.wire.envelopeId == id
  }

  ghost predicate RepliesOk(me: Me, t: Tables, cursor: nat, net: set<Packet>) {
    && (forall after: nat, status: nat :: Request(after, status) in net ==> after <= cursor)
    && (forall after, batch :: Reply(after, batch) in net ==> ReplyOk(me, t, cursor, after, batch))
    && (forall row :: Push(row) in net ==> PushOk(t, row))
  }

  ghost predicate AcksOk(committed: seq<Row>, net: set<Packet>) {
    forall id :: AckOf(id) in net ==> CommittedId(committed, id)
  }

  /** Rows are committed in ascending cursor order, and the cursor is that of the last one. */
  ghost predicate CursorOk(w: World) {
    && Ascending(w.committed, 0) && w.local.cursor == LastCursor(w.committed, 0)
    && w.local.cursor < w.tables.nextCursor
  }

  /** A row of this device that is marked delivered was committed here. */
  ghost predicate DeliveredOk(me: Me, t: Tables, committed: seq<Row>) {
    forall r :: r in t.rows && r.wire.recipientDevice == me.device && r.deliveredAt.Some? ==>
      CommittedId(committed, r.wire.envelopeId)
  }

  ghost predicate Sound(me: Me, w: World) {
    && Inv(w.tables) && CursorOk(w)
    && RepliesOk(me, w.tables, w.local.cursor, w.net) && AcksOk(w.committed, w.net)
    && DeliveredOk(me, w.tables, w.committed)
  }

  /** Every stored row of this device at or below its cursor was committed. */
  ghost predicate Complete(me: Me, w: World) {
    forall r :: r in w.tables.rows && r.wire.recipientDevice == me.device && r.cursor <= w.local.cursor ==>
      Relay.Known(w.committed, r)
  }

  /** A device that has just been set up. */
  ghost predicate Start(me: Me, w: World) {
    && Inv(w.tables) && w.tables.nextCursor >= 1 && (forall r :: r in w.tables.rows ==> r.cursor > 0)
    && (forall r :: r in w.tables.rows && r.wire.recipientDevice == me.device ==> r.deliveredAt.None?)
    && w.local.cursor == 0 && w.net == {} && w.committed == [] && w.composed == map[]
    && w.accepted == {} && w.erased == {}
  }
}
