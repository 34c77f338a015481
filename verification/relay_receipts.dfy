/** Acks and sync replies, read off the tables themselves. */
module RelayReceipts {
  // Whom an ack notifies and what it records, and which envelopes and delivery updates a reply holds.

  import opened Ids
  import opened RelayTables
  import opened RelayIntegrity
  import opened RelayStore

  // ----- ack -----

  /** The row that an ack of this envelope by this device is about. */
  predicate Meant(r: Row, device: DeviceId, id: EnvelopeId) {
    r.wire.envelopeId == id && r.wire.recipientDevice == device
  }

  /** An ack notifies exactly the account that sent the row, about exactly the row's message. */
  lemma AckNotifiesExactly(t: Tables, device: DeviceId, id: EnvelopeId, now: int, a: AccountId, l: LogicalId)
    requires UniqueIds(t.rows)
    ensures Ack(t, device, id, now).1 == Some((a, l))
       <==> exists r :: r in t.rows && Meant(r, device, id) && r.senderAccount == a && r.wire.logicalId == l
  {
    forall r | r in t.rows && Meant(r, device, id) ensures Lookup(t.rows, id) == Some(r) {
      LookupUnique(t.rows, r);
    }
  }

  /** An ack that is about no row changes nothing and notifies nobody. */
  lemma StrangeAckIsIgnored(t: Tables, device: DeviceId, id: EnvelopeId, now: int)
    requires UniqueIds(t.rows) && forall r :: r in t.rows ==> !Meant(r, device, id)
    ensures Ack(t, device, id, now) == (t, None)
  {
  }

  /** The sender has an update about the message. */
  ghost predicate HasUpdate(t: Tables, a: AccountId, l: LogicalId) {
    exists u :: u in t.updates && u.account == a && u.logicalId == l
  }

  /** One more update, or the same ones if the sender has one about the message. */
  ghost predicate RecordsOnce(t: Tables, s: Tables, a: AccountId, l: LogicalId, now: int) {
    && HasUpdate(s, a, l)
    && (HasUpdate(t, a, l) ==> s.updates == t.updates && s.nextUpdate == t.nextUpdate)
    && (!HasUpdate(t, a, l) ==>
          s.updates == t.updates + [Update(t.nextUpdate, a, l, now)] && s.nextUpdate == t.nextUpdate + 1)
  }

  lemma AddUpdateRecords(t: Tables, a: AccountId, l: LogicalId, now: int)
    ensures RecordsOnce(t, AddUpdate(t, a, l, now), a, l, now)
  {
    var s := AddUpdate(t, a, l, now);
    if !HasUpdate(t, a, l) {
      assert s.updates[|t.updates|] in s.updates;
    }
  }

  lemma AckIsAbout(t: Tables, device: DeviceId, id: EnvelopeId, now: int, r: Row)
    requires UniqueIds(t.rows) && r in t.rows && Meant(r, device, id)
    ensures Ack(t, device, id, now).0 == AckRow(t, r, now)
  {
    LookupUnique(t.rows, r);
  }

  /** The row's delivery time is set unless it was set before; no other row changes. */
  ghost predicate MarksOnly(rows: seq<Row>, marked: seq<Row>, device: DeviceId, id: EnvelopeId, now: int) {
    && |marked| == |rows|
    && forall i :: 0 <= i < |rows| ==>
         marked[i] == if Meant(rows[i], device, id) && rows[i].deliveredAt.None?
                      then rows[i].(deliveredAt := Some(now)) else rows[i]
  }

  lemma AckMarksExactly(t: Tables, device: DeviceId, id: EnvelopeId, now: int)
    requires UniqueIds(t.rows)
    ensures MarksOnly(t.rows, Ack(t, device, id, now).0.rows, device, id, now)
  {
    AckMarksOnlyItsRow(t, device, id, now);
  }

  /**
   What the ack of a row records: its delivery, its message's first delivery, and an update for the
   account that sent it, if that has none about the message yet.
   */
  ghost predicate Recorded(t: Tables, s: Tables, r: Row, now: int) {
    var l := r.wire.logicalId;
    && MarksOnly(t.rows, s.rows, r.wire.recipientDevice, r.wire.envelopeId, now)
    && l in t.logical && RecordsOnce(t, s, r.senderAccount, l, now)
    && s.logical == t.logical[l := if t.logical[l].deliveredAt.Some? then t.logical[l]
                                   else t.logical[l].(deliveredAt := Some(now))]
    && s == t.(rows := s.rows, logical := s.logical, updates := s.updates, nextUpdate := s.nextUpdate)
  }

  lemma AckRecordsExactly(t: Tables, device: DeviceId, id: EnvelopeId, now: int, r: Row)
    requires Inv(t) && r in t.rows && Meant(r, device, id)
    ensures Recorded(t, Ack(t, device, id, now).0, r, now)
  {
    AckIsAbout(t, device, id, now, r);
    AckMarksExactly(t, device, id, now);
    assert RowKeys(t, r);
    var stamped := StampLogical(t.logical, r.wire.logicalId, now);
    AddUpdateRecords(t.(rows := MarkDelivered(t.rows, device, id, now), logical := stamped), r.senderAccount,
                     r.wire.logicalId, now);
  }

  // ----- sync: delivery updates -----

  lemma {:induction false} UpdatesForHas(updates: seq<Update>, account: AccountId, after: nat, u: Update)
    ensures u in UpdatesFor(updates, account, after) <==> u in updates && u.account == account && u.cursor > after
  {
    if updates == [] {
    } else {
      UpdatesForHas(updates[1..], account, after, u);
      assert updates == [updates[0]] + updates[1..];
    }
  }

  lemma {:induction false} UpdatesForSorted(updates: seq<Update>, account: AccountId, after: nat)
    requires SortedUpdates(updates)
    ensures SortedUpdates(UpdatesFor(updates, account, after))
  {
    if updates == [] {
    } else {
      UpdatesTail(updates);
      UpdatesForSorted(updates[1..], account, after);
      forall u | u in UpdatesFor(updates[1..], account, after) ensures u.cursor > updates[0].cursor {
        UpdatesForHas(updates[1..], account, after, u);
      }
    }
  }

  lemma UpdatesForAre(updates: seq<Update>, account: AccountId, after: nat)
    requires SortedUpdates(updates)
    ensures var mine := UpdatesFor(updates, account, after);
            && SortedUpdates(mine)
            && forall u :: u in mine <==> u in updates && u.account == account && u.cursor > after
  {
    UpdatesForSorted(updates, account, after);
    forall u: Update
      ensures u in UpdatesFor(updates, account, after) <==> u in updates && u.account == account && u.cursor > after
    {
      UpdatesForHas(updates, account, after, u);
    }
  }

  /** The cursor that a reply's delivery updates reach. */
  function Reaches(statuses: seq<Update>, from: nat): nat {
    if statuses == [] then from else statuses[|statuses| - 1].cursor
  }

  /**
   A reply's delivery updates are, in cursor order, exactly those of the account between the request's
   status cursor and the reply's; at most 200, and fewer only when there are no more.
   */
  lemma StatusesAreExact(t: Tables, account: AccountId, device: DeviceId, after: nat, statusAfter: nat, limit: nat)
    requires Counters(t)
    ensures var batch := Sync(t, account, device, after, statusAfter, limit);
            && SortedUpdates(batch.statuses) && |batch.statuses| <= 200
            && batch.nextStatus == Reaches(batch.statuses, statusAfter) && statusAfter <= batch.nextStatus
            && (forall u :: u in batch.statuses
                  <==> u in t.updates && u.account == account && statusAfter < u.cursor <= batch.nextStatus)
            && (|batch.statuses| < 200 ==>
                  forall u :: u in t.updates && u.account == account ==> u.cursor <= batch.nextStatus)
  {
    var mine := UpdatesFor(t.updates, account, statusAfter);
    UpdatesForAre(t.updates, account, statusAfter);
    PrefixOfUpdates(mine, 200, statusAfter);
  }

  lemma PrefixOfUpdates(mine: seq<Update>, n: nat, from: nat)
    requires SortedUpdates(mine) && n > 0 && forall u :: u in mine ==> u.cursor > from
    ensures var first := Take(mine, n);
            && SortedUpdates(first) && |first| <= n && from <= Reaches(first, from)
            && (forall u :: u in first <==> u in mine && u.cursor <= Reaches(first, from))
            && (|first| < n ==> first == mine)
  {
    var first := Take(mine, n);
    forall u | u in mine && u.cursor <= Reaches(first, from) ensures u in first {
      var i :| 0 <= i < |mine| && mine[i] == u;
      assert i >= |first| ==> mine[|first| - 1].cursor < mine[i].cursor;
      assert i < |first| ==> first[i] == u;
    }
  }

  // ----- sync: envelopes -----

  lemma {:induction false} QueueAscends(rows: seq<Row>, device: DeviceId, after: nat)
    requires Sorted(rows)
    ensures Sorted(Queue(rows, device, after))
  {
    if rows == [] {
    } else {
      TailSorted(rows);
      QueueAscends(rows[1..], device, after);
    }
  }

  lemma PrefixOfQueue(queue: seq<Row>, n: nat, from: nat)
    requires Sorted(queue) && n > 0 && forall r :: r in queue ==> r.cursor > from
    ensures var first := Take(queue, n);
            && Sorted(first) && |first| <= n && from <= LastCursor(first, from)
            && (forall r :: r in first <==> r in queue && r.cursor <= LastCursor(first, from))
            && (|first| < n ==> first == queue)
  {
    var first := Take(queue, n);
    forall r | r in queue && r.cursor <= LastCursor(first, from) ensures r in first {
      var i :| 0 <= i < |queue| && queue[i] == r;
      assert i >= |first| ==> queue[|first| - 1].cursor < queue[i].cursor;
      assert i < |first| ==> first[i] == r;
    }
  }

  /** How many envelopes a reply may hold. */
  function SizeOf(limit: nat): nat {
    if limit < 1 then 1 else if limit > 200 then 200 else limit
  }

  lemma SyncIs(t: Tables, account: AccountId, device: DeviceId, after: nat, statusAfter: nat, limit: nat)
    ensures var batch, queue := Sync(t, account, device, after, statusAfter, limit), Queue(t.rows, device, after);
            && batch.rows == Take(queue, SizeOf(limit)) && batch.nextCursor == LastCursor(batch.rows, after)
            && (batch.hasMore <==> |queue| > SizeOf(limit))
  {
  }

  /**
   A reply's envelopes are, in cursor order, exactly those of the device between the request's cursor
   and the reply's; at most as many as asked for, within 1 and 200, and fewer only when there are no more.
   */
  lemma EnvelopesAreExact(t: Tables, account: AccountId, device: DeviceId, after: nat, statusAfter: nat, limit: nat)
    requires Counters(t)
    ensures var batch := Sync(t, account, device, after, statusAfter, limit);
            && Sorted(batch.rows) && |batch.rows| <= SizeOf(limit)
            && after <= batch.nextCursor && batch.nextCursor == LastCursor(batch.rows, after)
            && (forall r :: r in batch.rows
                  <==> r in t.rows && r.wire.recipientDevice == device && after < r.cursor <= batch.nextCursor)
            && (|batch.rows| < SizeOf(limit) ==>
                  forall r :: r in t.rows && r.wire.recipientDevice == device ==> r.cursor <= batch.nextCursor)
  {
    var queue := Queue(t.rows, device, after);
    QueueAscends(t.rows, device, after);
    SyncIs(t, account, device, after, statusAfter, limit);
    PrefixOfQueue(queue, SizeOf(limit), after);
    var batch := Sync(t, account, device, after, statusAfter, limit);
    forall r | r in t.rows && r.wire.recipientDevice == device && |batch.rows| < SizeOf(limit)
      ensures r.cursor <= batch.nextCursor
    {
      assert r.cursor > after ==> r in queue;
    }
  }

  /** A reply says that there is more exactly when the device has a row beyond it. */
  lemma HasMoreExactly(t: Tables, account: AccountId, device: DeviceId, after: nat, statusAfter: nat, limit: nat)
    requires Counters(t)
    ensures var batch := Sync(t, account, device, after, statusAfter, limit);
            batch.hasMore <==> exists r :: r in t.rows && r.wire.recipientDevice == device && r.cursor > batch.nextCursor
  {
    var queue, size := Queue(t.rows, device, after), SizeOf(limit);
    QueueAscends(t.rows, device, after);
    SyncIs(t, account, device, after, statusAfter, limit);
    EnvelopesAreExact(t, account, device, after, statusAfter, limit);
    var batch := Sync(t, account, device, after, statusAfter, limit);
    if |queue| > size {
      assert queue[size] in queue && batch.rows[size - 1] == queue[size - 1];
    } else {
      assert batch.rows == queue;
    }
  }
}
