/** store_envelopes and ack: exactly what they accept, change and keep. */
module RelayStore {
  // Exactly when a batch is accepted, what it changes, that retransmission changes nothing, and that
  // every invariant and quota is kept.

  import opened Ids
  import opened Sums
  import opened RelayTables
  import opened RelayIntegrity

  // ----- lookups while rows are appended -----

  lemma {:induction false} LookupAppend(rows: seq<Row>, r: Row, id: EnvelopeId)
    ensures Lookup(rows + [r], id)
         == if Lookup(rows, id).Some? then Lookup(rows, id) else if r.wire.envelopeId == id then Some(r) else None
  {
    if rows == [] {
      assert rows + [r] == [r];
    } else {
      assert (rows + [r])[1..] == rows[1..] + [r];
      LookupAppend(rows[1..], r, id);
    }
  }

  lemma LookupUnique(rows: seq<Row>, r: Row)
    requires UniqueIds(rows) && r in rows
    ensures Lookup(rows, r.wire.envelopeId) == Some(r)
  {
  }

  /** Ciphertext bytes of the envelopes whose id is not stored yet. */
  function Missing(rows: seq<Row>, active: seq<Wire>): nat {
    if active == [] then 0
    else (if Lookup(rows, active[0].envelopeId).None? then |active[0].ciphertext| else 0) + Missing(rows, active[1..])
  }

  lemma {:induction false} AdditionalIsMissing(rows: seq<Row>, active: seq<Wire>)
    ensures Additional(rows, active).Some? ==> Additional(rows, active).value == Missing(rows, active)
    ensures Additional(rows, active).Some? <==>
      forall e :: e in active && Lookup(rows, e.envelopeId).Some? ==>
        Lookup(rows, e.envelopeId).value.wire.ciphertext == e.ciphertext
  {
    if active == [] {
    } else {
      AdditionalIsMissing(rows, active[1..]);
      assert active == [active[0]] + active[1..];
    }
  }

  lemma {:induction false} MissingShrinks(rows: seq<Row>, r: Row, active: seq<Wire>)
    ensures Missing(rows + [r], active) <= Missing(rows, active)
  {
    if active == [] {
    } else {
      LookupAppend(rows, r, active[0].envelopeId);
      MissingShrinks(rows, r, active[1..]);
    }
  }

  // ----- when a batch is accepted -----

  /** No envelope of the batch disagrees with a stored row or with another envelope of the batch. */
  ghost predicate NoConflict(rows: seq<Row>, sender: AccountId, device: DeviceId, active: seq<Wire>) {
    && (forall e :: e in active && Lookup(rows, e.envelopeId).Some? ==>
          Persisted(Lookup(rows, e.envelopeId).value, sender, device, e))
    && (forall e, f :: e in active && f in active && e.envelopeId == f.envelopeId ==> e == f)
  }

  lemma {:induction false} InsertAllSucceedsExactly(t: Tables, sender: AccountId, device: DeviceId, active: seq<Wire>, now: int)
    ensures InsertAll(t, sender, device, active, now).Some? <==> NoConflict(t.rows, sender, device, active)
    decreases |active|
  {
    if active == [] {
    } else {
      var e, rest := active[0], active[1..];
      assert active == [e] + rest;
      var one := InsertOne(t, sender, device, e, now);
      if one.Some? {
        var t1 := one.value.0;
        InsertAllSucceedsExactly(t1, sender, device, rest, now);
        if Lookup(t.rows, e.envelopeId).None? {
          var row := NewRow(t, sender, device, e, now);
          assert t1.rows == t.rows + [row];
          forall f | f in rest ensures Lookup(t1.rows, f.envelopeId)
            == if Lookup(t.rows, f.envelopeId).Some? then Lookup(t.rows, f.envelopeId)
               else if f.envelopeId == e.envelopeId then Some(row) else None {
            LookupAppend(t.rows, row, f.envelopeId);
          }
          if NoConflict(t1.rows, sender, device, rest) {
            forall f | f in rest && f.envelopeId == e.envelopeId ensures f == e {
              assert Lookup(t1.rows, f.envelopeId) == Some(row);
            }
          }
        } else {
          assert t1 == t;
          if NoConflict(t.rows, sender, device, rest) {
            forall f | f in rest && f.envelopeId == e.envelopeId ensures f == e {
              assert Persisted(Lookup(t.rows, f.envelopeId).value, sender, device, f);
            }
          }
        }
      }
    }
  }

  /** The conditions under which store_envelopes accepts a batch. */
  ghost predicate Acceptable(
    t: Tables, sender: AccountId, device: DeviceId, envelopes: seq<Wire>, now: int, limits: Limits, freeDisk: nat)
  {
    && CheckBatch(sender, envelopes).None?
    && freeDisk >= limits.freeDisk
    && var id := envelopes[0].logicalId;
       var wanted := NewLogical(sender, device, envelopes, now);
       var active := ActiveWires(t, envelopes);
       && (if id in t.logical then SameMetadata(t.logical[id], wanted) else LogicalKeys(t, wanted))
       && PeerReached(sender, wanted.peer, active)
       && NoConflict(t.rows, sender, device, active)
       && UsageOf(t.usage, sender) + Missing(t.rows, active) <= limits.account
       && SumMap(t.usage) + Missing(t.rows, active) <= limits.total
  }

  lemma {:induction false} ActiveWiresFrame(t: Tables, s: Tables, envelopes: seq<Wire>)
    requires s.devices == t.devices && s.accounts == t.accounts
    ensures ActiveWires(s, envelopes) == ActiveWires(t, envelopes)
  {
    if envelopes == [] {
    } else {
      ActiveWiresFrame(t, s, envelopes[1..]);
    }
  }

  lemma StoreIntoSucceedsExactly(
    tx: Tables, sender: AccountId, device: DeviceId, peer: AccountId, active: seq<Wire>, now: int, limits: Limits)
    ensures var outcome := StoreInto(tx, sender, device, peer, active, now, limits);
            && (outcome.Stored? <==>
                  && PeerReached(sender, peer, active)
                  && NoConflict(tx.rows, sender, device, active)
                  && UsageOf(tx.usage, sender) + Missing(tx.rows, active) <= limits.account
                  && SumMap(tx.usage) + Missing(tx.rows, active) <= limits.total)
            && (outcome.Stored? ==>
                  InsertAll(tx, sender, device, active, now) == Some((outcome.tables, outcome.destinations)))
  {
    AdditionalIsMissing(tx.rows, active);
    InsertAllSucceedsExactly(tx, sender, device, active, now);
  }

  /** A batch is stored if and only if it is acceptable. */
  lemma StoreAcceptsExactly(
    t: Tables, sender: AccountId, device: DeviceId, envelopes: seq<Wire>, now: int, limits: Limits, freeDisk: nat)
    ensures StoreEnvelopes(t, sender, device, envelopes, now, limits, freeDisk).Stored?
       <==> Acceptable(t, sender, device, envelopes, now, limits, freeDisk)
  {
    if CheckBatch(sender, envelopes).None? {
      var id := envelopes[0].logicalId;
      var wanted := NewLogical(sender, device, envelopes, now);
      var ensured := EnsureLogical(t, id, wanted);
      if ensured.Some? {
        ActiveWiresFrame(t, ensured.value, envelopes);
        StoreIntoSucceedsExactly(ensured.value, sender, device, wanted.peer, ActiveWires(t, envelopes), now, limits);
      }
    }
  }

  /** The steps an accepted batch went through. */
  lemma StoredSteps(
    t: Tables, sender: AccountId, device: DeviceId, envelopes: seq<Wire>, now: int, limits: Limits, freeDisk: nat)
    returns (tx: Tables, active: seq<Wire>)
    requires StoreEnvelopes(t, sender, device, envelopes, now, limits, freeDisk).Stored?
    ensures CheckBatch(sender, envelopes).None?
    ensures var wanted := NewLogical(sender, device, envelopes, now);
            && EnsureLogical(t, envelopes[0].logicalId, wanted) == Some(tx)
            && envelopes[0].logicalId in tx.logical && SameMetadata(tx.logical[envelopes[0].logicalId], wanted)
            && PeerReached(sender, wanted.peer, active)
    ensures active == ActiveWires(t, envelopes) == ActiveWires(tx, envelopes)
    ensures UsageOf(t.usage, sender) + Missing(t.rows, active) <= limits.account
    ensures SumMap(t.usage) + Missing(t.rows, active) <= limits.total
    ensures var outcome := StoreEnvelopes(t, sender, device, envelopes, now, limits, freeDisk);
            InsertAll(tx, sender, device, active, now) == Some((outcome.tables, outcome.destinations))
  {
    var wanted := NewLogical(sender, device, envelopes, now);
    tx := EnsureLogical(t, envelopes[0].logicalId, wanted).value;
    ActiveWiresFrame(t, tx, envelopes);
    active := ActiveWires(t, envelopes);
    StoreIntoSucceedsExactly(tx, sender, device, wanted.peer, active, now, limits);
  }

  // ----- what an accepted batch changes -----

  /** `s` is `t` with new, undelivered rows of the batch appended under consecutive cursors. */
  ghost predicate AppendsRows(t: Tables, s: Tables, sender: AccountId, device: DeviceId, active: seq<Wire>, now: int) {
    && s == t.(rows := s.rows, usage := s.usage, nextCursor := s.nextCursor)
    && |t.rows| <= |s.rows| && s.rows[..|t.rows|] == t.rows
    && s.nextCursor == t.nextCursor + (|s.rows| - |t.rows|)
    && (forall i :: |t.rows| <= i < |s.rows| ==>
          && s.rows[i].wire in active
          && s.rows[i] == Row(t.nextCursor + (i - |t.rows|), s.rows[i].wire, sender, device, now, None))
  }

  /** Every active envelope of a batch is stored, under the given cursors. */
  ghost predicate Holds(
    t: Tables, sender: AccountId, device: DeviceId, active: seq<Wire>, destinations: Destinations)
  {
    && |destinations| == |active|
    && forall i :: 0 <= i < |active| ==> HoldsOne(t.rows, sender, device, active[i], destinations[i])
  }

  ghost predicate HoldsOne(rows: seq<Row>, sender: AccountId, device: DeviceId, e: Wire, destination: (DeviceId, nat)) {
    && destination.0 == e.recipientDevice
    && exists r :: r in rows && r.cursor == destination.1 && Persisted(r, sender, device, e)
  }

  lemma AppendsRowsCompose(
    t: Tables, t1: Tables, s: Tables, sender: AccountId, device: DeviceId, e: Wire, rest: seq<Wire>, now: int)
    requires AppendsRows(t, t1, sender, device, [e], now) && AppendsRows(t1, s, sender, device, rest, now)
    ensures AppendsRows(t, s, sender, device, [e] + rest, now)
  {
    assert s.rows[..|t.rows|] == s.rows[..|t1.rows|][..|t.rows|];
    forall i | |t.rows| <= i < |s.rows|
      ensures s.rows[i].wire in [e] + rest
      ensures s.rows[i] == Row(t.nextCursor + (i - |t.rows|), s.rows[i].wire, sender, device, now, None)
    {
      if i < |t1.rows| {
        assert s.rows[i] == s.rows[..|t1.rows|][i];
      }
    }
  }

  lemma InsertOneAppends(t: Tables, sender: AccountId, device: DeviceId, e: Wire, now: int)
    requires InsertOne(t, sender, device, e, now).Some?
    ensures AppendsRows(t, InsertOne(t, sender, device, e, now).value.0, sender, device, [e], now)
  {
  }

  lemma {:induction false} InsertAllAppends(t: Tables, sender: AccountId, device: DeviceId, active: seq<Wire>, now: int)
    requires InsertAll(t, sender, device, active, now).Some?
    ensures AppendsRows(t, InsertAll(t, sender, device, active, now).value.0, sender, device, active, now)
    decreases |active|
  {
    if active == [] {
    } else {
      var (t1, cursor) := InsertOne(t, sender, device, active[0], now).value;
      InsertOneAppends(t, sender, device, active[0], now);
      InsertAllAppends(t1, sender, device, active[1..], now);
      var s := InsertAll(t1, sender, device, active[1..], now).value.0;
      AppendsRowsCompose(t, t1, s, sender, device, active[0], active[1..], now);
      assert active == [active[0]] + active[1..];
    }
  }

  lemma {:induction false} InsertAllHolds(t: Tables, sender: AccountId, device: DeviceId, active: seq<Wire>, now: int)
    requires InsertAll(t, sender, device, active, now).Some?
    ensures var (s, destinations) := InsertAll(t, sender, device, active, now).value;
            Holds(s, sender, device, active, destinations)
    decreases |active|
  {
    if active == [] {
    } else {
      var (t1, cursor) := InsertOne(t, sender, device, active[0], now).value;
      InsertAllHolds(t1, sender, device, active[1..], now);
      InsertAllAppends(t1, sender, device, active[1..], now);
      var (s, rest) := InsertAll(t1, sender, device, active[1..], now).value;
      var destinations := [(active[0].recipientDevice, cursor)] + rest;
      var found := Lookup(t.rows, active[0].envelopeId);
      var r := if found.Some? then found.value else NewRow(t, sender, device, active[0], now);
      assert r in t1.rows;
      forall i | 1 <= i < |active| ensures HoldsOne(s.rows, sender, device, active[i], destinations[i]) {
        assert destinations[i] == rest[i - 1] && active[i] == active[1..][i - 1];
      }
    }
  }

  lemma {:induction false} InsertGrowth(t: Tables, sender: AccountId, device: DeviceId, active: seq<Wire>, now: int)
    requires InsertAll(t, sender, device, active, now).Some?
    ensures var usage := InsertAll(t, sender, device, active, now).value.0.usage;
            && (forall a :: a in t.usage ==> a in usage)
            && (forall a :: a in usage && a != sender ==> a in t.usage && usage[a] == t.usage[a])
            && UsageOf(usage, sender) <= UsageOf(t.usage, sender) + Missing(t.rows, active)
            && SumMap(usage) <= SumMap(t.usage) + Missing(t.rows, active)
    decreases |active|
  {
    if active == [] {
    } else {
      var (t1, cursor) := InsertOne(t, sender, device, active[0], now).value;
      InsertGrowth(t1, sender, device, active[1..], now);
      if Lookup(t.rows, active[0].envelopeId).None? {
        var row := NewRow(t, sender, device, active[0], now);
        MissingShrinks(t.rows, row, active[1..]);
        SumUpdate(t.usage, sender, UsageOf(t.usage, sender) + |active[0].ciphertext|);
      }
    }
  }

  /** Under fixed limits, no store takes an account or the relay over its quota. */
  lemma StoreKeepsQuota(
    t: Tables, sender: AccountId, device: DeviceId, envelopes: seq<Wire>, now: int, limits: Limits, freeDisk: nat)
    requires WithinQuota(t, limits)
    requires StoreEnvelopes(t, sender, device, envelopes, now, limits, freeDisk).Stored?
    ensures WithinQuota(StoreEnvelopes(t, sender, device, envelopes, now, limits, freeDisk).tables, limits)
  {
    var tx, active := StoredSteps(t, sender, device, envelopes, now, limits, freeDisk);
    InsertGrowth(tx, sender, device, active, now);
  }

  // ----- invariants -----

  /** What makes an envelope of a batch fit the tables it is inserted into. */
  ghost predicate Fits(t: Tables, sender: AccountId, device: DeviceId, e: Wire) {
    && e.logicalId in t.logical
    && t.logical[e.logicalId].senderAccount == sender && t.logical[e.logicalId].senderDevice == device
    && t.logical[e.logicalId].conversation == e.conversation
    && (e.recipientAccount == sender || e.recipientAccount == t.logical[e.logicalId].peer)
    && IsActive(t, e.recipientAccount, e.recipientDevice)
  }

  lemma InsertRowKeepsKeys(t: Tables, sender: AccountId, device: DeviceId, e: Wire, now: int)
    requires ForeignKeys(t) && CrossTable(t) && Fits(t, sender, device, e)
    ensures var s := InsertRow(t, NewRow(t, sender, device, e, now)); ForeignKeys(s) && CrossTable(s)
  {
    var row := NewRow(t, sender, device, e, now);
    var s := InsertRow(t, row);
    assert LogicalKeys(t, t.logical[e.logicalId]);
    forall r | r in s.rows ensures RowKeys(s, r) && RowMatches(s, r) {
      assert r == row || (r in t.rows && RowKeys(t, r) && RowMatches(t, r));
    }
    forall id | id in s.logical ensures LogicalKeys(s, s.logical[id]) && LogicalMatches(s, s.logical[id]) {
      assert LogicalKeys(t, t.logical[id]) && LogicalMatches(t, t.logical[id]);
    }
  }

  lemma InsertRowKeepsCounters(t: Tables, sender: AccountId, device: DeviceId, e: Wire, now: int)
    requires Counters(t) && Unique(t) && UsageExact(t) && Lookup(t.rows, e.envelopeId).None?
    ensures var s := InsertRow(t, NewRow(t, sender, device, e, now)); Counters(s) && Unique(s) && UsageExact(s)
  {
    var row := NewRow(t, sender, device, e, now);
    var s := InsertRow(t, row);
    forall a | a in s.usage ensures s.usage[a] == BytesOf(s.rows, a) {
      BytesOfAppend(t.rows, row, a);
      if a !in t.usage {
        NoRowsNoBytes(t.rows, a);
      }
    }
  }

  lemma {:induction false} NoRowsNoBytes(rows: seq<Row>, a: AccountId)
    requires forall r :: r in rows ==> r.senderAccount != a
    ensures BytesOf(rows, a) == 0
  {
    if rows == [] {
    } else {
      NoRowsNoBytes(rows[1..], a);
    }
  }

  lemma {:induction false} InsertAllKeepsBase(t: Tables, sender: AccountId, device: DeviceId, active: seq<Wire>, now: int)
    requires Base(t)
    requires forall e :: e in active ==> Fits(t, sender, device, e)
    requires InsertAll(t, sender, device, active, now).Some?
    ensures Base(InsertAll(t, sender, device, active, now).value.0)
    decreases |active|
  {
    if active == [] {
    } else {
      var (t1, cursor) := InsertOne(t, sender, device, active[0], now).value;
      if Lookup(t.rows, active[0].envelopeId).None? {
        InsertRowKeepsKeys(t, sender, device, active[0], now);
        InsertRowKeepsCounters(t, sender, device, active[0], now);
      }
      forall e | e in active[1..] ensures Fits(t1, sender, device, e) {
        assert Fits(t, sender, device, e);
      }
      InsertAllKeepsBase(t1, sender, device, active[1..], now);
    }
  }

  lemma EnsureLogicalKeepsBase(t: Tables, id: LogicalId, l: Logical)
    requires Base(t) && LogicalMatches(t, l) && EnsureLogical(t, id, l).Some?
    ensures Base(EnsureLogical(t, id, l).value)
  {
    if id !in t.logical {
      var s := EnsureLogical(t, id, l).value;
      forall r | r in s.rows ensures RowKeys(s, r) && RowMatches(s, r) {
        assert RowKeys(t, r) && RowMatches(t, r);
      }
      forall i | i in s.logical ensures LogicalKeys(s, s.logical[i]) && LogicalMatches(s, s.logical[i]) {
        if i != id {
          assert LogicalKeys(t, t.logical[i]) && LogicalMatches(t, t.logical[i]);
        }
      }
    }
  }

  /** A sending session: an authenticated device of the sender's account. */
  ghost predicate Session(t: Tables, sender: AccountId, device: DeviceId) {
    device in t.devices && t.devices[device].account == sender
  }

  /** Everything a batch needs to fit follows from the checks made before it is inserted. */
  lemma {:induction false} PeerIsTheOther(sender: AccountId, envelopes: seq<Wire>)
    ensures PeerOf(sender, envelopes) == sender ==> forall e :: e in envelopes ==> e.recipientAccount == sender
    ensures PeerOf(sender, envelopes) != sender ==>
      exists e :: e in envelopes && e.recipientAccount == PeerOf(sender, envelopes)
  {
    if envelopes == [] || envelopes[0].recipientAccount != sender {
    } else {
      PeerIsTheOther(sender, envelopes[1..]);
      if PeerOf(sender, envelopes) != sender {
        var e :| e in envelopes[1..] && e.recipientAccount == PeerOf(sender, envelopes);
        assert e in envelopes;
      } else {
        forall e | e in envelopes ensures e.recipientAccount == sender {
          assert e == envelopes[0] || e in envelopes[1..];
        }
      }
    }
  }

  lemma StoreKeepsInv(
    t: Tables, sender: AccountId, device: DeviceId, envelopes: seq<Wire>, now: int, limits: Limits, freeDisk: nat)
    requires Inv(t) && Session(t, sender, device)
    requires StoreEnvelopes(t, sender, device, envelopes, now, limits, freeDisk).Stored?
    ensures Inv(StoreEnvelopes(t, sender, device, envelopes, now, limits, freeDisk).tables)
  {
    var tx, active := StoredSteps(t, sender, device, envelopes, now, limits, freeDisk);
    EnsuredBatchKeepsInv(t, tx, sender, device, envelopes, now);
  }

  lemma EnsuredIsBase(t: Tables, tx: Tables, sender: AccountId, device: DeviceId, envelopes: seq<Wire>, now: int)
    requires Base(t) && Session(t, sender, device) && envelopes != []
    requires EnsureLogical(t, envelopes[0].logicalId, NewLogical(sender, device, envelopes, now)) == Some(tx)
    ensures Base(tx) && tx.rows == t.rows && tx.logical.Keys == t.logical.Keys + {envelopes[0].logicalId}
  {
    EnsureLogicalKeepsBase(t, envelopes[0].logicalId, NewLogical(sender, device, envelopes, now));
  }

  lemma EnsuredBatchKeepsInv(
    t: Tables, tx: Tables, sender: AccountId, device: DeviceId, envelopes: seq<Wire>, now: int)
    requires Inv(t) && Session(t, sender, device) && CheckBatch(sender, envelopes).None?
    requires EnsureLogical(t, envelopes[0].logicalId, NewLogical(sender, device, envelopes, now)) == Some(tx)
    requires SameMetadata(tx.logical[envelopes[0].logicalId], NewLogical(sender, device, envelopes, now))
    requires ActiveWires(tx, envelopes) != [] && InsertAll(tx, sender, device, ActiveWires(tx, envelopes), now).Some?
    ensures Inv(InsertAll(tx, sender, device, ActiveWires(tx, envelopes), now).value.0)
  {
    EnsuredIsBase(t, tx, sender, device, envelopes, now);
    BatchFits(tx, sender, device, envelopes, now);
    InsertedBatchKeepsInv(t, tx, sender, device, ActiveWires(tx, envelopes), now, envelopes[0].logicalId);
  }

  lemma InsertedBatchKeepsInv(
    t: Tables, tx: Tables, sender: AccountId, device: DeviceId, active: seq<Wire>, now: int, id: LogicalId)
    requires EveryLogicalHasRow(t) && Base(tx) && tx.rows == t.rows && tx.logical.Keys == t.logical.Keys + {id}
    requires active != [] && forall e :: e in active ==> e.logicalId == id && Fits(tx, sender, device, e)
    requires InsertAll(tx, sender, device, active, now).Some?
    ensures Inv(InsertAll(tx, sender, device, active, now).value.0)
  {
    InsertAllKeepsBase(tx, sender, device, active, now);
    StoredLogicalHasRow(t, tx, sender, device, active, now, id);
  }

  lemma BatchFits(tx: Tables, sender: AccountId, device: DeviceId, envelopes: seq<Wire>, now: int)
    requires CheckBatch(sender, envelopes).None? && envelopes[0].logicalId in tx.logical
    requires SameMetadata(tx.logical[envelopes[0].logicalId], NewLogical(sender, device, envelopes, now))
    ensures forall e :: e in ActiveWires(tx, envelopes) ==> e.logicalId == envelopes[0].logicalId && Fits(tx, sender, device, e)
  {
    forall e | e in ActiveWires(tx, envelopes)
      ensures e.logicalId == envelopes[0].logicalId && Fits(tx, sender, device, e)
    {
      assert e in envelopes;
      assert ValidWire(e, ConversationOf(sender, PeerOf(sender, envelopes)));
    }
  }

  lemma StoredLogicalHasRow(
    t: Tables, tx: Tables, sender: AccountId, device: DeviceId, active: seq<Wire>, now: int, id: LogicalId)
    requires EveryLogicalHasRow(t) && tx.rows == t.rows && tx.logical.Keys == t.logical.Keys + {id}
    requires active != [] && forall e :: e in active ==> e.logicalId == id
    requires InsertAll(tx, sender, device, active, now).Some?
    ensures EveryLogicalHasRow(InsertAll(tx, sender, device, active, now).value.0)
  {
    InsertAllAppends(tx, sender, device, active, now);
    InsertAllHolds(tx, sender, device, active, now);
    var (s, destinations) := InsertAll(tx, sender, device, active, now).value;
    forall i | i in s.logical ensures i in LiveIds(s.rows) {
      if i == id {
        assert HoldsOne(s.rows, sender, device, active[0], destinations[0]);
      } else {
        assert i in LiveIds(t.rows);
        var r :| r in t.rows && r.wire.logicalId == i;
        var k :| 0 <= k < |t.rows| && t.rows[k] == r;
        assert s.rows[..|t.rows|][k] == s.rows[k];
        assert r in s.rows;
      }
    }
  }

  // ----- retransmission -----

  lemma {:induction false} InsertAllOfHeld(
    t: Tables, sender: AccountId, device: DeviceId, active: seq<Wire>, now: int, destinations: Destinations)
    requires Unique(t) && Holds(t, sender, device, active, destinations)
    ensures InsertAll(t, sender, device, active, now) == Some((t, destinations))
    ensures Additional(t.rows, active) == Some(0)
    decreases |active|
  {
    if active == [] {
    } else {
      assert HoldsOne(t.rows, sender, device, active[0], destinations[0]);
      var r :| r in t.rows && r.cursor == destinations[0].1 && Persisted(r, sender, device, active[0]);
      LookupUnique(t.rows, r);
      forall i | 0 <= i < |active[1..]| ensures HoldsOne(t.rows, sender, device, active[1..][i], destinations[1..][i]) {
        assert active[1..][i] == active[i + 1] && destinations[1..][i] == destinations[i + 1];
      }
      InsertAllOfHeld(t, sender, device, active[1..], now, destinations[1..]);
      assert destinations == [destinations[0]] + destinations[1..];
    }
  }

  /** At `s`, a batch accepted earlier still finds its recipients, its rows and its logical message. */
  ghost predicate StillThere(
    t: Tables, s: Tables, sender: AccountId, device: DeviceId, envelopes: seq<Wire>, destinations: Destinations)
    requires envelopes != []
  {
    && ActiveWires(s, envelopes) == ActiveWires(t, envelopes)
    && Holds(s, sender, device, ActiveWires(t, envelopes), destinations)
    && envelopes[0].logicalId in s.logical
    && SameMetadata(s.logical[envelopes[0].logicalId], NewLogical(sender, device, envelopes, 0))
  }

  /**
   A batch accepted at `t` and sent again at any later state `s` where the same recipients are
   active and none of its rows has been cleaned is accepted again with the same cursors, and
   changes no table.
   */
  lemma RetransmissionChangesNothing(
    t: Tables, s: Tables, sender: AccountId, device: DeviceId, envelopes: seq<Wire>,
    now: int, later: int, limits: Limits, freeDisk: nat, freeLater: nat)
    requires StoreEnvelopes(t, sender, device, envelopes, now, limits, freeDisk).Stored?
    requires Unique(s) && WithinQuota(s, limits) && freeLater >= limits.freeDisk
    requires envelopes != [] && StillThere(t, s, sender, device, envelopes,
               StoreEnvelopes(t, sender, device, envelopes, now, limits, freeDisk).destinations)
    ensures StoreEnvelopes(s, sender, device, envelopes, later, limits, freeLater)
         == Stored(s, StoreEnvelopes(t, sender, device, envelopes, now, limits, freeDisk).destinations)
  {
    var tx, active := StoredSteps(t, sender, device, envelopes, now, limits, freeDisk);
    InsertAllOfHeld(s, sender, device, active, later,
                    StoreEnvelopes(t, sender, device, envelopes, now, limits, freeDisk).destinations);
  }

  /** Right after a batch was accepted it is still there. */
  lemma StoredBatchIsStillThere(
    t: Tables, sender: AccountId, device: DeviceId, envelopes: seq<Wire>, now: int, limits: Limits, freeDisk: nat)
    requires StoreEnvelopes(t, sender, device, envelopes, now, limits, freeDisk).Stored?
    ensures envelopes != []
    ensures var first := StoreEnvelopes(t, sender, device, envelopes, now, limits, freeDisk);
            StillThere(t, first.tables, sender, device, envelopes, first.destinations)
  {
    var tx, active := StoredSteps(t, sender, device, envelopes, now, limits, freeDisk);
    InsertAllHolds(tx, sender, device, active, now);
    InsertAllAppends(tx, sender, device, active, now);
    ActiveWiresFrame(t, InsertAll(tx, sender, device, active, now).value.0, envelopes);
  }

  // ----- ack -----

  /** `s` is `t` with other delivery times, and perhaps more delivery updates. */
  ghost predicate Restamps(t: Tables, s: Tables) {
    && s == t.(rows := s.rows, logical := s.logical, updates := s.updates, nextUpdate := s.nextUpdate)
    && |s.rows| == |t.rows|
    && (forall i :: 0 <= i < |t.rows| ==> s.rows[i] == t.rows[i].(deliveredAt := s.rows[i].deliveredAt))
    && s.logical.Keys == t.logical.Keys
    && (forall id :: id in s.logical ==> s.logical[id] == t.logical[id].(deliveredAt := s.logical[id].deliveredAt))
    && (forall u :: u in s.updates && u !in t.updates ==>
          u.logicalId in t.logical && u.account == t.logical[u.logicalId].senderAccount)
  }

  lemma RestampedRow(t: Tables, s: Tables, r: Row) returns (q: Row)
    requires Restamps(t, s) && r in s.rows
    ensures q in t.rows && r == q.(deliveredAt := r.deliveredAt)
  {
    var i :| 0 <= i < |s.rows| && s.rows[i] == r;
    q := t.rows[i];
  }

  lemma RestampKeepsForeignKeys(t: Tables, s: Tables)
    requires ForeignKeys(t) && Restamps(t, s)
    ensures ForeignKeys(s)
  {
    forall r | r in s.rows ensures RowKeys(s, r) {
      var q := RestampedRow(t, s, r);
      assert RowKeys(t, q);
    }
    forall id | id in s.logical ensures LogicalKeys(s, s.logical[id]) {
      assert LogicalKeys(t, t.logical[id]);
    }
    forall u | u in s.updates ensures u.account in s.accounts {
      if u !in t.updates {
        assert LogicalKeys(t, t.logical[u.logicalId]);
      }
    }
  }

  lemma RestampKeepsCrossTable(t: Tables, s: Tables)
    requires CrossTable(t) && Restamps(t, s)
    ensures CrossTable(s)
  {
    forall r | r in s.rows ensures r.wire.logicalId in s.logical && RowMatches(s, r) {
      var q := RestampedRow(t, s, r);
      assert RowMatches(t, q);
    }
    forall id | id in s.logical ensures LogicalMatches(s, s.logical[id]) {
      assert LogicalMatches(t, t.logical[id]);
    }
  }

  lemma RestampKeepsRows(t: Tables, s: Tables)
    requires Restamps(t, s) && EveryLogicalHasRow(t) && UsageExact(t)
    ensures EveryLogicalHasRow(s) && UsageExact(s)
  {
    forall id | id in s.logical ensures id in LiveIds(s.rows) {
      assert id in LiveIds(t.rows);
      var q :| q in t.rows && q.wire.logicalId == id;
      var i :| 0 <= i < |t.rows| && t.rows[i] == q;
      assert s.rows[i] in s.rows;
    }
    forall a | a in s.usage ensures s.usage[a] == BytesOf(s.rows, a) {
      SameBytes(t.rows, s.rows, a);
    }
    forall r | r in s.rows ensures r.senderAccount in s.usage {
      var q := RestampedRow(t, s, r);
    }
  }

  lemma {:induction false} SameBytes(rows: seq<Row>, marked: seq<Row>, a: AccountId)
    requires |marked| == |rows|
    requires forall i :: 0 <= i < |rows| ==> marked[i] == rows[i].(deliveredAt := marked[i].deliveredAt)
    ensures BytesOf(marked, a) == BytesOf(rows, a)
  {
    if rows == [] {
    } else {
      assert marked[0] == rows[0].(deliveredAt := marked[0].deliveredAt);
      forall i | 0 <= i < |rows[1..]| ensures marked[1..][i] == rows[1..][i].(deliveredAt := marked[1..][i].deliveredAt) {
        assert marked[1..][i] == marked[i + 1] && rows[1..][i] == rows[i + 1];
      }
      SameBytes(rows[1..], marked[1..], a);
    }
  }

  lemma RestampKeepsRowOrder(t: Tables, s: Tables)
    requires Restamps(t, s) && Sorted(t.rows) && UniqueIds(t.rows)
    requires forall r :: r in t.rows ==> r.cursor < t.nextCursor
    ensures Sorted(s.rows) && UniqueIds(s.rows)
    ensures forall r :: r in s.rows ==> r.cursor < s.nextCursor
  {
    forall r | r in s.rows ensures r.cursor < s.nextCursor {
      var q := RestampedRow(t, s, r);
    }
    forall i, j | 0 <= i < j < |s.rows| ensures s.rows[i].cursor < s.rows[j].cursor {
      assert t.rows[i].cursor < t.rows[j].cursor;
    }
    forall r, q | r in s.rows && q in s.rows && r.wire.envelopeId == q.wire.envelopeId ensures r == q {
      var i :| 0 <= i < |s.rows| && s.rows[i] == r;
      var j :| 0 <= j < |s.rows| && s.rows[j] == q;
      assert t.rows[i] in t.rows && t.rows[j] in t.rows && t.rows[i] == t.rows[j];
      assert i == j by {
        assert t.rows[i].cursor == t.rows[j].cursor;
      }
    }
  }

  lemma AddUpdateKeepsOrder(t: Tables, account: AccountId, id: LogicalId, now: int)
    requires SortedUpdates(t.updates) && UniqueUpdates(t.updates)
    requires forall u :: u in t.updates ==> u.cursor < t.nextUpdate
    ensures var s := AddUpdate(t, account, id, now);
            && SortedUpdates(s.updates) && UniqueUpdates(s.updates)
            && (forall u :: u in s.updates ==> u.cursor < s.nextUpdate)
            && (forall u :: u in s.updates && u !in t.updates ==> u.account == account && u.logicalId == id)
            && (exists u :: u in s.updates && u.account == account && u.logicalId == id)
  {
    var s := AddUpdate(t, account, id, now);
    if s != t {
      assert s.updates[|t.updates|] in s.updates;
    }
  }

  lemma AckRowRestamps(t: Tables, row: Row, now: int)
    requires CrossTable(t) && row in t.rows && SortedUpdates(t.updates) && UniqueUpdates(t.updates)
    requires forall u :: u in t.updates ==> u.cursor < t.nextUpdate
    ensures Restamps(t, AckRow(t, row, now))
  {
    assert RowMatches(t, row);
    var marked := MarkDelivered(t.rows, row.wire.recipientDevice, row.wire.envelopeId, now);
    var stamped := StampLogical(t.logical, row.wire.logicalId, now);
    assert stamped.Keys == t.logical.Keys;
    var t1 := t.(rows := marked, logical := stamped);
    AddUpdateKeepsOrder(t1, row.senderAccount, row.wire.logicalId, now);
    var s := AddUpdate(t1, row.senderAccount, row.wire.logicalId, now);
    assert s.rows == marked && s.logical == stamped;
  }

  lemma AckRowKeepsInv(t: Tables, row: Row, now: int)
    requires Inv(t) && row in t.rows
    ensures Inv(AckRow(t, row, now))
  {
    var s := AckRow(t, row, now);
    AckRowRestamps(t, row, now);
    RestampKeepsForeignKeys(t, s);
    RestampKeepsCrossTable(t, s);
    RestampKeepsRows(t, s);
    RestampKeepsRowOrder(t, s);
    AckRowKeepsUpdates(t, row, now);
  }

  lemma AckRowKeepsUpdates(t: Tables, row: Row, now: int)
    requires SortedUpdates(t.updates) && UniqueUpdates(t.updates)
    requires forall u :: u in t.updates ==> u.cursor < t.nextUpdate
    ensures var s := AckRow(t, row, now);
            && SortedUpdates(s.updates) && UniqueUpdates(s.updates)
            && (forall u :: u in s.updates ==> u.cursor < s.nextUpdate)
            && (exists u :: u in s.updates && u.account == row.senderAccount && u.logicalId == row.wire.logicalId)
  {
    var t1 := t.(rows := MarkDelivered(t.rows, row.wire.recipientDevice, row.wire.envelopeId, now),
                 logical := StampLogical(t.logical, row.wire.logicalId, now));
    AddUpdateKeepsOrder(t1, row.senderAccount, row.wire.logicalId, now);
  }

  lemma AckKeepsInv(t: Tables, device: DeviceId, id: EnvelopeId, now: int)
    requires Inv(t)
    ensures Inv(Ack(t, device, id, now).0)
  {
    var found := Lookup(t.rows, id);
    if found.Some? && found.value.wire.recipientDevice == device {
      AckRowKeepsInv(t, found.value, now);
    }
  }

  /** An ack sets the delivery time of the one matching undelivered row, and of no other. */
  lemma AckMarksOnlyItsRow(t: Tables, device: DeviceId, id: EnvelopeId, now: int)
    requires UniqueIds(t.rows)
    ensures Ack(t, device, id, now).0.rows == MarkDelivered(t.rows, device, id, now)
    ensures Ack(t, device, id, now).1.Some? <==> exists r :: r in t.rows && Acked(r, device, id)
  {
    var found := Lookup(t.rows, id);
    if found.Some? && found.value.wire.recipientDevice == device {
      assert Acked(found.value, device, id);
    } else {
      forall r | r in t.rows ensures !Acked(r, device, id) {
        if Acked(r, device, id) {
          LookupUnique(t.rows, r);
        }
      }
      var marked := MarkDelivered(t.rows, device, id, now);
      forall i | 0 <= i < |t.rows| ensures marked[i] == t.rows[i] {
        assert t.rows[i] in t.rows;
      }
      assert marked == t.rows;
    }
  }

  lemma AckAgainKeepsTables(t: Tables, row: Row, now: int)
    requires row in t.rows && row.deliveredAt.Some? && UniqueIds(t.rows)
    requires row.wire.logicalId in t.logical && t.logical[row.wire.logicalId].deliveredAt.Some?
    requires exists u :: u in t.updates && u.account == row.senderAccount && u.logicalId == row.wire.logicalId
    ensures AckRow(t, row, now) == t
  {
    var marked := MarkDelivered(t.rows, row.wire.recipientDevice, row.wire.envelopeId, now);
    forall i | 0 <= i < |t.rows| ensures marked[i] == t.rows[i] {
      assert t.rows[i] in t.rows;
    }
    assert marked == t.rows;
    assert StampLogical(t.logical, row.wire.logicalId, now) == t.logical;
  }

  /** After an ack the row, its logical message and the sender's update all record delivery. */
  lemma AckRowRecords(t: Tables, row: Row, now: int)
    requires row in t.rows && row.wire.logicalId in t.logical
    requires SortedUpdates(t.updates) && UniqueUpdates(t.updates) && forall u :: u in t.updates ==> u.cursor < t.nextUpdate
    ensures var s := AckRow(t, row, now);
            && row.wire.logicalId in s.logical && s.logical[row.wire.logicalId].deliveredAt.Some?
            && (exists u :: u in s.updates && u.account == row.senderAccount && u.logicalId == row.wire.logicalId)
            && row.(deliveredAt := OrElse(row.deliveredAt, now)) in s.rows
  {
    AckRowKeepsUpdates(t, row, now);
    var i :| 0 <= i < |t.rows| && t.rows[i] == row;
    assert AckRow(t, row, now).rows[i] == row.(deliveredAt := OrElse(row.deliveredAt, now));
  }

  lemma AckRowTwice(t: Tables, row: Row, now: int, later: int)
    requires Inv(t) && row in t.rows
    ensures var again := row.(deliveredAt := OrElse(row.deliveredAt, now));
            && Lookup(AckRow(t, row, now).rows, row.wire.envelopeId) == Some(again)
            && AckRow(AckRow(t, row, now), again, later) == AckRow(t, row, now)
  {
    assert RowMatches(t, row);
    AckRowRecords(t, row, now);
    AckRowRestamps(t, row, now);
    var s, again := AckRow(t, row, now), row.(deliveredAt := OrElse(row.deliveredAt, now));
    RestampKeepsRowOrder(t, s);
    LookupUnique(s.rows, again);
    AckAgainKeepsTables(s, again, later);
  }

  /** Acknowledging an envelope twice is the same as acknowledging it once. */
  lemma AckIsIdempotent(t: Tables, device: DeviceId, id: EnvelopeId, now: int, later: int)
    requires Inv(t)
    ensures Ack(Ack(t, device, id, now).0, device, id, later) == Ack(t, device, id, now)
  {
    var found := Lookup(t.rows, id);
    if found.Some? && found.value.wire.recipientDevice == device {
      AckRowTwice(t, found.value, now, later);
    }
  }
}
