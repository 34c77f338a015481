/** The running client over any sequence of events. */
module ClientRun {
  // Queued messages, announced deletions and new messages are dispatched by different parts of the
  // program; still at most one sync and at most one send per message are in flight.

  import opened Ids
  import opened RelayTables
  import opened LocalTables
  import Integrity = LocalIntegrity
  import opened ClientSync
  import opened ClientFlight

  datatype Event =
    | StartSync(call: Call, now: int)
    | Query(call: Call, op: Request, now: int)
    | ComposeMessage(id: LogicalId, message: Message, frame: seq<Wire>, call: Call, now: int)
    | ComposeControl(id: LogicalId, frame: seq<Wire>, call: Call, now: int)
    | AnnounceDeletions(todo: seq<Announcement>, targets: bool, now: int)
    | ResendAll(items: seq<Item>, now: int)
    | Tick(now: int)
    | Receives(id: nat, body: Body, now: int)
    | DeleteHere(peer: AccountId, username: nat, conversation: Conversation, syncId: LogicalId, deletedAt: int)
    | VerifyPeer(account: AccountId)
    | Retry
    | Connect
    | Drop
    | Restart

  function LocalAfter(t: Local, body: Body): Local
    requires body.BatchBody? ==> |body.verdicts| == |body.batch.rows|
  {
    match body
    case BatchBody(batch, verdicts) => HandleBatch(t, batch, verdicts).local
    case AcceptedBody(l) => CompleteOutbox(t, l)
    case DeliveredBody(l) => UpdateStatus(t, l, Delivered)
    case _ => t
  }

  function Step(c: Client, e: Event): Client
    requires Shaped(e)
  {
    var f, t := c.flight, c.local;
    match e
    case StartSync(call, now) => c.(flight := RequestSync(f, call, now))
    case Query(call, op, now) => c.(flight := Dispatch(f, call, op, now))
    case ComposeMessage(id, m, frame, call, now) =>
      Client(Dispatch(f, call, Outbox(id), now), CommitOutgoing(t, id, m, frame))
    case ComposeControl(id, frame, call, now) =>
      Client(Dispatch(f, call, Outbox(id), now), CommitControlOutgoing(t, id, frame))
    case AnnounceDeletions(todo, targets, now) => Announce(c, todo, targets, now)
    case ResendAll(items, now) => c.(flight := Resend(f, items, now))
    case Tick(now) => c.(flight := Expire(f, now))
    case Receives(id, body, now) => Client(Receive(f, id, body, now), LocalAfter(t, body))
    case DeleteHere(peer, username, conversation, syncId, at) =>
      (match DeleteEverywhere(t, peer, username, conversation, syncId, at)
       case None => c
       case Some(next) => c.(local := next))
    case VerifyPeer(account) => c.(local := VerifyContact(t, account))
    case Retry => c.(flight := f.(blocked := {}, retryAfter := map[]))
    case Connect => c.(flight := f.(connected := true))
    case Drop => c.(flight := Reset(f))
    case Restart => c.(flight := IDLE)
  }

  predicate Shaped(e: Event) {
    e.Receives? && e.body.BatchBody? ==> |e.body.verdicts| == |e.body.batch.rows|
  }

  // ----- what the code relies on: random ids are new, and ids come from the tables -----

  predicate PendingSync(t: Local, id: LogicalId) {
    exists p :: p in t.tombstones && t.tombstones[p].pending && t.tombstones[p].syncId == id
  }

  predicate NewId(c: Client, id: LogicalId) {
    id !in c.local.messages && !InFlight(c.flight, id) && !PendingSync(c.local, id)
  }

  predicate Inserts(v: Verdict, id: LogicalId) {
    v.Accept? && (v.effect.Inbound? || v.effect.Unverified?) && v.effect.id == id
  }

  function CallsOfAll(todo: seq<Announcement>): seq<Call> {
    seq(|todo|, i requires 0 <= i < |todo| => todo[i].call)
  }

  ghost predicate Enabled(c: Client, e: Event) {
    Shaped(e) &&
    match e
    case StartSync(call, _) => FreshCall(c.flight, call)
    case Query(call, op, _) => FreshCall(c.flight, call) && op != Sync && !op.Outbox?
    case ComposeMessage(id, _, _, call, _) => FreshCall(c.flight, call) && NewId(c, id)
    case ComposeControl(id, _, call, _) => FreshCall(c.flight, call) && NewId(c, id)
    case AnnounceDeletions(todo, _, _) =>
      FreshCalls(c.flight.requests.Keys, CallsOfAll(todo)) && forall a :: a in todo ==> PendingSync(c.local, a.syncId)
    case ResendAll(items, _) =>
      FreshCalls(c.flight.requests.Keys, CallsOf(items)) && forall i :: i in items ==> i.logicalId in c.local.outbox
    case Receives(_, BatchBody(_, verdicts), _) =>
      forall v, id :: v in verdicts && Inserts(v, id) ==> !PendingSync(c.local, id)
    case DeleteHere(_, _, _, syncId, _) => NewId(c, syncId)
    case _ => true
  }

  // ----- the joint invariant -----

  /** A pending deletion's event is no message, and if it is being sent it is also queued. */
  ghost predicate Queued(f: Flight, t: Local) {
    forall id :: PendingSync(t, id) ==> id !in t.messages && (InFlight(f, id) ==> id in t.outbox)
  }

  ghost predicate Ok(c: Client) {
    Booked(c.flight) && Queued(c.flight, c.local)
  }

  lemma {:induction false} ResendKeepsQueued(f: Flight, t: Local, items: seq<Item>, now: int)
    requires Queued(f, t) && FreshCalls(f.requests.Keys, CallsOf(items))
    requires forall i :: i in items ==> i.logicalId in t.outbox
    ensures Queued(ResendItems(f, items, now), t)
    decreases |items|
  {
    if items == [] {
    } else {
      assert CallsOf(items)[0] in CallsOf(items);
      var g := ResendOne(f, items[0], now);
      forall id | PendingSync(t, id) && InFlight(g, id) ensures id in t.outbox {
      }
      FreshTail(f, g, CallsOf(items));
      assert CallsOf(items)[1..] == CallsOf(items[1..]);
      ResendKeepsQueued(g, t, items[1..], now);
    }
  }

  /** The loop that announces deletions never sends an event that is already in flight. */
  lemma {:induction false} AnnounceKeepsOk(c: Client, todo: seq<Announcement>, targets: bool, now: int)
    requires Ok(c) && FreshCalls(c.flight.requests.Keys, CallsOfAll(todo))
    requires targets ==> forall a :: a in todo ==> PendingSync(c.local, a.syncId)
    ensures Ok(Announce(c, todo, targets, now))
    decreases |todo|
  {
    if todo == [] {
    } else {
      var a := todo[0];
      assert CallsOfAll(todo)[0] in CallsOfAll(todo);
      assert CallsOfAll(todo)[1..] == CallsOfAll(todo[1..]);
      FreshTail(c.flight, c.flight, CallsOfAll(todo));
      if a.syncId in c.local.outbox {
        AnnounceKeepsOk(c, todo[1..], targets, now);
      } else if !targets {
        SettleKeepsQueued(c.flight, c.local, a.syncId);
        AnnounceKeepsOk(c.(local := MarkSynced(c.local, a.syncId)), todo[1..], targets, now);
      } else {
        assert PendingSync(c.local, a.syncId) && !InFlight(c.flight, a.syncId);
        var next := AnnounceOne(c, a, now);
        AnnounceOneKeepsOk(c, a, now);
        if a.call.sent {
          FreshTail(c.flight, next.flight, CallsOfAll(todo));
          AnnounceKeepsOk(next, todo[1..], targets, now);
        }
      }
    }
  }

  function AnnounceOne(c: Client, a: Announcement, now: int): Client {
    Client(Dispatch(c.flight, a.call, Outbox(a.syncId), now), CommitControlOutgoing(c.local, a.syncId, a.frame))
  }

  lemma AnnounceOneKeepsOk(c: Client, a: Announcement, now: int)
    requires Ok(c) && FreshCall(c.flight, a.call) && !InFlight(c.flight, a.syncId)
    ensures Ok(AnnounceOne(c, a, now))
    ensures forall id :: PendingSync(AnnounceOne(c, a, now).local, id) <==> PendingSync(c.local, id)
  {
    var next := AnnounceOne(c, a, now);
    DispatchKeepsBooked(c.flight, a.call, Outbox(a.syncId), now);
    assert next.local.tombstones == c.local.tombstones;
    forall id | PendingSync(next.local, id)
      ensures id !in next.local.messages && (InFlight(next.flight, id) ==> id in next.local.outbox)
    {
      assert PendingSync(c.local, id);
    }
  }

  /** The event is queued, and on its way. */
  ghost predicate Announced(c: Client, id: LogicalId) {
    id in c.local.outbox && InFlight(c.flight, id)
  }

  /** The announcing loop takes nothing back. */
  lemma {:induction false} AnnounceKeeps(c: Client, todo: seq<Announcement>, now: int, id: LogicalId)
    requires FreshCalls(c.flight.requests.Keys, CallsOfAll(todo)) && id in c.local.outbox
    ensures id in Announce(c, todo, true, now).local.outbox
    ensures InFlight(c.flight, id) ==> InFlight(Announce(c, todo, true, now).flight, id)
    decreases |todo|
  {
    if todo == [] {
    } else {
      var a := todo[0];
      assert CallsOfAll(todo)[0] in CallsOfAll(todo);
      assert CallsOfAll(todo)[1..] == CallsOfAll(todo[1..]);
      FreshTail(c.flight, c.flight, CallsOfAll(todo));
      if a.syncId in c.local.outbox {
        AnnounceKeeps(c, todo[1..], now, id);
      } else if a.call.sent {
        var next := AnnounceOne(c, a, now);
        FreshTail(c.flight, next.flight, CallsOfAll(todo));
        if InFlight(c.flight, id) {
          DispatchKeepsSending(c.flight, a.call, Outbox(a.syncId), now, id);
        }
        AnnounceKeeps(next, todo[1..], now, id);
      }
    }
  }

  /**
   With a device to tell and a queue that takes every frame, each event that was not queued before is
   queued with its frame and on its way; with no device to tell, it is settled.
   */
  lemma {:induction false} AnnouncesAll(c: Client, todo: seq<Announcement>, now: int, a: Announcement)
    requires a in todo && a.syncId !in c.local.outbox && forall b :: b in todo ==> b.call.sent
    requires FreshCalls(c.flight.requests.Keys, CallsOfAll(todo))
    ensures Announced(Announce(c, todo, true, now), a.syncId)
    decreases |todo|
  {
    var first := todo[0];
    assert first in todo && CallsOfAll(todo)[0] in CallsOfAll(todo);
    assert CallsOfAll(todo)[1..] == CallsOfAll(todo[1..]);
    FreshTail(c.flight, c.flight, CallsOfAll(todo));
    if first.syncId in c.local.outbox {
      AnnouncesAll(c, todo[1..], now, a);
    } else {
      var next := AnnounceOne(c, first, now);
      FreshTail(c.flight, next.flight, CallsOfAll(todo));
      if first.syncId == a.syncId {
        assert next.flight.requests[RequestId(c.flight, first.call)] == Outbox(a.syncId);
        AnnounceKeeps(next, todo[1..], now, a.syncId);
      } else {
        AnnouncesAll(next, todo[1..], now, a);
      }
    }
  }

  /** With no other device to tell, the events that are not queued are settled, and nothing is sent. */
  lemma {:induction false} NobodyToTell(c: Client, todo: seq<Announcement>, now: int)
    ensures var s := Announce(c, todo, false, now);
            && s.flight == c.flight && s.local.outbox == c.local.outbox && s.local.tombstones.Keys == c.local.tombstones.Keys
            && forall p :: p in c.local.tombstones ==>
                 var b, d := c.local.tombstones[p], s.local.tombstones[p];
                 d == b.(pending := d.pending)
                 && (d.pending <==>
                       b.pending && (b.syncId in c.local.outbox || forall a :: a in todo ==> a.syncId != b.syncId))
    decreases |todo|
  {
    if todo == [] {
    } else {
      assert todo == [todo[0]] + todo[1..];
      NobodyToTell(c, todo[1..], now);
      NobodyToTell(c.(local := MarkSynced(c.local, todo[0].syncId)), todo[1..], now);
    }
  }

  lemma SettleKeepsQueued(f: Flight, t: Local, syncId: LogicalId)
    requires Queued(f, t)
    ensures Queued(f, MarkSynced(t, syncId))
    ensures forall id :: PendingSync(MarkSynced(t, syncId), id) ==> PendingSync(t, id) && id != syncId
  {
    var s := MarkSynced(t, syncId);
    forall id | PendingSync(s, id) ensures PendingSync(t, id) && id != syncId {
      var p :| p in s.tombstones && s.tombstones[p].pending && s.tombstones[p].syncId == id;
      assert t.tombstones[p].pending && t.tombstones[p].syncId == id;
    }
  }

  lemma CompleteKeepsQueued(f: Flight, t: Local, l: LogicalId)
    requires Queued(f, t)
    ensures Queued(f, CompleteOutbox(t, l))
  {
    SettleKeepsQueued(f, t, l);
    var s := CompleteOutbox(t, l);
    var mid := MarkSynced(t, l);
    assert s.tombstones == mid.tombstones && s.messages.Keys == t.messages.Keys && s.outbox == t.outbox - {l};
    forall id | PendingSync(s, id) ensures id !in s.messages && (InFlight(f, id) ==> id in s.outbox) {
      assert PendingSync(mid, id);
    }
  }

  /** `s` has no new pending event; messages are new only outside the pending ids; queued events stay. */
  ghost predicate Settled(t: Local, s: Local) {
    && (forall id :: PendingSync(s, id) ==> PendingSync(t, id))
    && (forall id :: PendingSync(s, id) && id in s.messages ==> id in t.messages)
    && (forall id :: PendingSync(s, id) && id in t.outbox && id !in t.messages ==> id in s.outbox)
  }

  lemma SettledKeepsQueued(f: Flight, t: Local, s: Local)
    requires Queued(f, t) && Settled(t, s)
    ensures Queued(f, s)
  {
  }

  lemma SettledTrans(a: Local, b: Local, c: Local)
    requires Settled(a, b) && Settled(b, c) && forall id :: PendingSync(a, id) ==> id !in a.messages
    ensures Settled(a, c)
  {
  }

  lemma SameTombstones(t: Local, s: Local)
    requires s.tombstones == t.tombstones && t.outbox.Keys <= s.outbox.Keys
    requires forall id :: id in s.messages && id !in t.messages ==> !PendingSync(t, id)
    ensures Settled(t, s)
  {
    forall id | PendingSync(s, id) ensures PendingSync(t, id) {}
  }

  lemma CommitSettled(t: Local, e: Effect, cursor: nat)
    requires Commit(t, e, cursor).Some?
    requires e.Inbound? || e.Unverified? ==> !PendingSync(t, e.id)
    ensures Settled(t, Commit(t, e, cursor).value)
  {
    if e.Deletion? {
      DeletionSettled(t, e, cursor);
    } else {
      SameTombstones(t, Commit(t, e, cursor).value);
    }
  }

  lemma DeletionSettled(t: Local, e: Effect, cursor: nat)
    requires Commit(t, e, cursor).Some? && e.Deletion?
    ensures Settled(t, Commit(t, e, cursor).value)
  {
    var s := Commit(t, e, cursor).value;
    forall id | PendingSync(s, id) ensures PendingSync(t, id) {
      var p :| p in s.tombstones && s.tombstones[p].pending && s.tombstones[p].syncId == id;
      assert p in t.tombstones && t.tombstones[p].pending && t.tombstones[p].syncId == id;
    }
  }

  predicate Quiet(t: Local, v: Verdict) {
    v.Accept? && (v.effect.Inbound? || v.effect.Unverified?) ==> !PendingSync(t, v.effect.id)
  }

  predicate NoPendingMessage(t: Local) {
    forall p :: p in t.tombstones && t.tombstones[p].pending ==> t.tombstones[p].syncId !in t.messages
  }

  lemma HandleRowSettled(t: Local, row: Row, v: Verdict)
    requires Quiet(t, v) && NoPendingMessage(t)
    ensures Settled(t, HandleRow(t, row, v).local)
  {
    var mid := ReadAll(t, v.readIds, v.peer);
    ReadAllFrame(t, v.readIds, v.peer);
    SameTombstones(t, mid);
    if v.Accept? && Commit(mid, v.effect, row.cursor).Some? {
      CommitSettled(mid, v.effect, row.cursor);
      SettledTrans(t, mid, Commit(mid, v.effect, row.cursor).value);
    }
  }

  lemma SettledNoPendingMessage(t: Local, s: Local)
    requires Settled(t, s) && NoPendingMessage(t)
    ensures NoPendingMessage(s)
  {
    forall p | p in s.tombstones && s.tombstones[p].pending ensures s.tombstones[p].syncId !in s.messages {
      assert PendingSync(s, s.tombstones[p].syncId);
    }
  }

  lemma {:induction false} HandleRowsSettled(t: Local, rows: seq<Row>, verdicts: seq<Verdict>)
    requires |verdicts| == |rows| && NoPendingMessage(t) && forall v :: v in verdicts ==> Quiet(t, v)
    ensures Settled(t, HandleRows(t, rows, verdicts).local)
    decreases |rows|
  {
    if rows == [] {
      SameTombstones(t, t);
    } else if rows[0].cursor <= t.cursor {
      HandleRowsSettled(t, rows[1..], verdicts[1..]);
    } else {
      var one := HandleRow(t, rows[0], verdicts[0]);
      HandleRowSettled(t, rows[0], verdicts[0]);
      if one.ok {
        SettledNoPendingMessage(t, one.local);
        forall v | v in verdicts[1..] ensures Quiet(one.local, v) {
          assert Quiet(t, v);
        }
        HandleRowsSettled(one.local, rows[1..], verdicts[1..]);
        SettledTrans(t, one.local, HandleRows(one.local, rows[1..], verdicts[1..]).local);
      }
    }
  }

  lemma HandleBatchSettled(t: Local, batch: Batch, verdicts: seq<Verdict>)
    requires |verdicts| == |batch.rows| && NoPendingMessage(t) && forall v :: v in verdicts ==> Quiet(t, v)
    ensures Settled(t, HandleBatch(t, batch, verdicts).local)
  {
    var mid := ApplyStatuses(t, batch.statuses);
    ApplyStatusesFrame(t, batch.statuses);
    SameTombstones(t, mid);
    SettledNoPendingMessage(t, mid);
    forall v | v in verdicts ensures Quiet(mid, v) {
      assert Quiet(t, v);
    }
    HandleRowsSettled(mid, batch.rows, verdicts);
    var h := HandleRows(mid, batch.rows, verdicts).local;
    SettledTrans(t, mid, h);
    SameTombstones(h, HandleBatch(t, batch, verdicts).local);
    SettledTrans(t, h, HandleBatch(t, batch, verdicts).local);
  }

  lemma LocalAfterKeepsQueued(c: Client, f: Flight, id: nat, body: Body, now: int)
    requires Queued(f, c.local) && Enabled(c, Receives(id, body, now))
    ensures Queued(f, LocalAfter(c.local, body))
  {
    match body
    case BatchBody(batch, verdicts) =>
      forall p | p in c.local.tombstones && c.local.tombstones[p].pending
        ensures c.local.tombstones[p].syncId !in c.local.messages
      {
        assert PendingSync(c.local, c.local.tombstones[p].syncId);
      }
      forall v | v in verdicts ensures Quiet(c.local, v) {
        if v.Accept? && (v.effect.Inbound? || v.effect.Unverified?) {
          assert Inserts(v, v.effect.id);
        }
      }
      HandleBatchSettled(c.local, batch, verdicts);
      SettledKeepsQueued(f, c.local, LocalAfter(c.local, body));
    case AcceptedBody(l) => CompleteKeepsQueued(f, c.local, l);
    case DeliveredBody(l) =>
      SameTombstones(c.local, LocalAfter(c.local, body));
      SettledKeepsQueued(f, c.local, LocalAfter(c.local, body));
    case _ =>
  }

  lemma DeletionKeepsQueued(
    c: Client, peer: AccountId, username: nat, conversation: Conversation, syncId: LogicalId, at: int)
    requires Queued(c.flight, c.local) && NewId(c, syncId)
    requires DeleteEverywhere(c.local, peer, username, conversation, syncId, at).Some?
    ensures Queued(c.flight, DeleteEverywhere(c.local, peer, username, conversation, syncId, at).value)
  {
    var s := DeleteEverywhere(c.local, peer, username, conversation, syncId, at).value;
    forall id | PendingSync(s, id) ensures id !in s.messages && (InFlight(c.flight, id) ==> id in s.outbox) {
      var p :| p in s.tombstones && s.tombstones[p].pending && s.tombstones[p].syncId == id;
      if id != syncId {
        assert p in c.local.tombstones && c.local.tombstones[p].pending && c.local.tombstones[p].syncId == id;
        assert PendingSync(c.local, id);
      }
    }
  }

  lemma VerifyKeepsQueued(f: Flight, t: Local, account: AccountId)
    requires Queued(f, t) && Integrity.UniqueSyncIds(t.tombstones)
    ensures Queued(f, VerifyContact(t, account))
  {
    var s := VerifyContact(t, account);
    forall id | PendingSync(s, id) ensures id !in s.messages && (InFlight(f, id) ==> id in s.outbox) {
      var p :| p in s.tombstones && s.tombstones[p].pending && s.tombstones[p].syncId == id;
      assert PendingSync(t, id);
      assert p != account;
    }
  }

  /** One event keeps the books, for a relay that answers a sync with a batch or an error. */
  lemma StepKeepsOk(c: Client, e: Event)
    requires Ok(c) && Enabled(c, e) && Integrity.UniqueSyncIds(c.local.tombstones)
    requires e.Receives? ==> !StrayAnswer(c.flight, e.id, e.body)
    ensures Ok(Step(c, e))
  {
    var f, t := c.flight, c.local;
    match e
    case StartSync(call, now) => StartSyncKeepsOk(c, call, now);
    case Query(call, op, now) =>
      DispatchKeepsBooked(f, call, op, now);
      forall id | PendingSync(t, id) && InFlight(Dispatch(f, call, op, now), id) ensures id in t.outbox {
      }
    case ComposeMessage(id, m, frame, call, now) =>
      DispatchKeepsBooked(f, call, Outbox(id), now);
    case ComposeControl(id, frame, call, now) =>
      DispatchKeepsBooked(f, call, Outbox(id), now);
    case AnnounceDeletions(todo, targets, now) => AnnounceKeepsOk(c, todo, targets, now);
    case ResendAll(items, now) =>
      var g := f.(retryAfter := StillWaiting(f.retryAfter, now));
      SameRequests(f, g, t);
      ResendKeepsBooked(g, items, now);
      ResendKeepsQueued(g, t, items, now);
    case Tick(now) =>
      ExpireKeepsBooked(f, now);
    case Receives(id, body, now) => ReceiveKeepsOk(c, id, body, now);
    case DeleteHere(peer, username, conversation, syncId, at) =>
      if Step(c, e) != c {
        DeletionKeepsQueued(c, peer, username, conversation, syncId, at);
      }
    case VerifyPeer(account) => VerifyKeepsQueued(f, t, account);
    case _ => QuietStepKeepsOk(c, e);
  }

  lemma QuietStepKeepsOk(c: Client, e: Event)
    requires Ok(c) && (e.Retry? || e.Connect? || e.Drop? || e.Restart?)
    ensures Ok(Step(c, e))
  {
    if e.Retry? || e.Connect? {
      SameRequests(c.flight, Step(c, e).flight, c.local);
    }
  }

  lemma SameRequests(f: Flight, g: Flight, t: Local)
    requires Booked(f) && Queued(f, t) && g.requests == f.requests && g.deadlines == f.deadlines && g.syncing == f.syncing
    ensures Booked(g) && Queued(g, t)
  {
    if Syncing(f) {
      var i :| i in f.requests && f.requests[i] == Sync;
      assert g.requests[i] == Sync;
    }
  }

  lemma StartSyncKeepsOk(c: Client, call: Call, now: int)
    requires Ok(c) && FreshCall(c.flight, call)
    ensures Ok(c.(flight := RequestSync(c.flight, call, now)))
  {
    RequestSyncKeepsBooked(c.flight, call, now);
    var g := RequestSync(c.flight, call, now);
    forall id | PendingSync(c.local, id) && InFlight(g, id) ensures id in c.local.outbox {
      if g != c.flight {
        var i :| i in g.requests && g.requests[i] == Outbox(id);
        assert Dispatch(c.flight, call, Sync, now).requests[i] == Outbox(id);
      }
    }
  }

  lemma ReceiveKeepsOk(c: Client, id: nat, body: Body, now: int)
    requires Ok(c) && Enabled(c, Receives(id, body, now)) && !StrayAnswer(c.flight, id, body)
    ensures Ok(Step(c, Receives(id, body, now)))
  {
    AnswerKeepsFlagExactly(c.flight, id, body, now);
    var g := Receive(c.flight, id, body, now);
    LocalAfterKeepsQueued(c, g, id, body, now);
  }

  ghost predicate EnabledRun(c: Client, events: seq<Event>)
    decreases |events|
  {
    events != [] ==>
      && Enabled(c, events[0])
      && (events[0].Receives? ==> !StrayAnswer(c.flight, events[0].id, events[0].body))
      && EnabledRun(Step(c, events[0]), events[1..])
  }

  ghost function Run(c: Client, events: seq<Event>): Client
    requires EnabledRun(c, events)
    decreases |events|
  {
    if events == [] then c else Run(Step(c, events[0]), events[1..])
  }

  lemma StepKeepsUnique(c: Client, e: Event)
    requires Integrity.UniqueSyncIds(c.local.tombstones) && Shaped(e)
    ensures Integrity.UniqueSyncIds(Step(c, e).local.tombstones)
  {
    if e.AnnounceDeletions? {
      AnnounceKeepsUnique(c, e.todo, e.targets, e.now);
    } else if e.Receives? {
      BodyKeepsUnique(c.local, e.body);
    } else if e.DeleteHere? {
      DeletionKeepsUnique(c.local, e.peer, e.username, e.conversation, e.syncId, e.deletedAt);
    } else if e.VerifyPeer? {
      VerifyKeepsUnique(c.local, e.account);
    } else {
      QuietStepKeepsTombstones(c, e);
    }
  }

  lemma BodyKeepsUnique(t: Local, body: Body)
    requires Integrity.UniqueSyncIds(t.tombstones) && (body.BatchBody? ==> |body.verdicts| == |body.batch.rows|)
    ensures Integrity.UniqueSyncIds(LocalAfter(t, body).tombstones)
  {
    match body
    case BatchBody(batch, verdicts) =>
      ApplyStatusesFrame(t, batch.statuses);
      HandleRowsKeepsUnique(ApplyStatuses(t, batch.statuses), batch.rows, verdicts);
    case AcceptedBody(l) => SettleKeepsUnique(t.tombstones, l);
    case _ =>
  }

  lemma QuietStepKeepsTombstones(c: Client, e: Event)
    requires !e.AnnounceDeletions? && !e.DeleteHere? && !e.VerifyPeer? && !e.Receives?
    ensures Step(c, e).local.tombstones == c.local.tombstones
  {
  }

  lemma VerifyKeepsUnique(t: Local, account: AccountId)
    requires Integrity.UniqueSyncIds(t.tombstones)
    ensures Integrity.UniqueSyncIds(VerifyContact(t, account).tombstones)
  {
  }

  lemma SettleKeepsUnique(tombstones: Tombstones, syncId: LogicalId)
    requires Integrity.UniqueSyncIds(tombstones)
    ensures Integrity.UniqueSyncIds(Settle(tombstones, syncId))
  {
  }

  lemma DeletionKeepsUnique(
    t: Local, peer: AccountId, username: nat, conversation: Conversation, syncId: LogicalId, at: int)
    requires Integrity.UniqueSyncIds(t.tombstones)
    ensures var s := DeleteEverywhere(t, peer, username, conversation, syncId, at);
            s.Some? ==> Integrity.UniqueSyncIds(s.value.tombstones)
  {
  }

  lemma {:induction false} AnnounceKeepsUnique(c: Client, todo: seq<Announcement>, targets: bool, now: int)
    requires Integrity.UniqueSyncIds(c.local.tombstones)
    ensures Integrity.UniqueSyncIds(Announce(c, todo, targets, now).local.tombstones)
    decreases |todo|
  {
    if todo == [] {
    } else {
      var a := todo[0];
      AnnounceKeepsUnique(c, todo[1..], targets, now);
      AnnounceKeepsUnique(c.(local := MarkSynced(c.local, a.syncId)), todo[1..], targets, now);
      AnnounceKeepsUnique(AnnounceOne(c, a, now), todo[1..], targets, now);
    }
  }

  lemma {:induction false} HandleRowsKeepsUnique(t: Local, rows: seq<Row>, verdicts: seq<Verdict>)
    requires |verdicts| == |rows| && Integrity.UniqueSyncIds(t.tombstones)
    ensures Integrity.UniqueSyncIds(HandleRows(t, rows, verdicts).local.tombstones)
    decreases |rows|
  {
    if rows == [] {
    } else {
      HandleRowsKeepsUnique(t, rows[1..], verdicts[1..]);
      if rows[0].cursor > t.cursor {
        var one := HandleRow(t, rows[0], verdicts[0]);
        HandleRowKeepsUnique(t, rows[0], verdicts[0]);
        HandleRowsKeepsUnique(one.local, rows[1..], verdicts[1..]);
      }
    }
  }

  lemma CommitKeepsUnique(t: Local, e: Effect, cursor: nat)
    requires Integrity.UniqueSyncIds(t.tombstones) && Commit(t, e, cursor).Some?
    ensures Integrity.UniqueSyncIds(Commit(t, e, cursor).value.tombstones)
  {
  }

  lemma HandleRowKeepsUnique(t: Local, row: Row, v: Verdict)
    requires Integrity.UniqueSyncIds(t.tombstones)
    ensures Integrity.UniqueSyncIds(HandleRow(t, row, v).local.tombstones)
  {
    var mid := ReadAll(t, v.readIds, v.peer);
    ReadAllFrame(t, v.readIds, v.peer);
    if v.Accept? && Commit(mid, v.effect, row.cursor).Some? {
      CommitKeepsUnique(mid, v.effect, row.cursor);
    }
  }

  /**
   Over any run with a relay that answers a sync with a batch or an error: requests and deadlines
   have the same keys, at most one sync is in flight and the flag is set exactly then, and at most
   one send of each logical message is in flight.
   */
  lemma {:induction false} RunKeepsBooks(c: Client, events: seq<Event>)
    requires Ok(c) && Integrity.UniqueSyncIds(c.local.tombstones) && EnabledRun(c, events)
    ensures Ok(Run(c, events)) && Integrity.UniqueSyncIds(Run(c, events).local.tombstones)
    decreases |events|
  {
    if events == [] {
    } else {
      StepKeepsOk(c, events[0]);
      StepKeepsUnique(c, events[0]);
      RunKeepsBooks(Step(c, events[0]), events[1..]);
    }
  }

  /** From a new client on, the books are right at any time. */
  lemma BooksFromStart(events: seq<Event>)
    requires EnabledRun(Client(IDLE, BLANK), events)
    ensures Booked(Run(Client(IDLE, BLANK), events).flight)
  {
    RunKeepsBooks(Client(IDLE, BLANK), events);
  }
}
