/** What store_envelopes asks for and adds, read off the tables themselves. */
module RelayAccepts {
  // The conditions and the new rows in terms of accounts, devices, messages and rows, without the
  // functions that the transaction itself uses.

  import opened Ids
  import opened Sums
  import opened RelayTables
  import opened RelayIntegrity
  import opened RelayStore

  /** The account the batch talks to: the one other recipient, or the sender when there is none. */
  predicate IsPeer(sender: AccountId, envelopes: seq<Wire>, peer: AccountId) {
    && (forall e :: e in envelopes ==> e.recipientAccount == sender || e.recipientAccount == peer)
    && (peer != sender ==> exists e :: e in envelopes && e.recipientAccount == peer)
  }

  /** One logical message, in envelopes of its conversation that are neither empty nor too long. */
  predicate OneMessage(sender: AccountId, envelopes: seq<Wire>, peer: AccountId) {
    && 1 <= |envelopes| <= 16
    && forall e :: e in envelopes ==>
         && e.logicalId == envelopes[0].logicalId && e.logicalId != 0
         && e.conversation == ConversationOf(sender, peer)
         && 1 <= |e.ciphertext| <= 262144
  }

  lemma {:induction false} PeerIsUnique(sender: AccountId, envelopes: seq<Wire>, peer: AccountId)
    requires IsPeer(sender, envelopes, peer)
    ensures PeerOf(sender, envelopes) == peer
  {
    if envelopes == [] {
    } else if envelopes[0].recipientAccount != sender {
      assert envelopes[0] in envelopes;
    } else {
      forall e | e in envelopes[1..] ensures e in envelopes {
      }
      if peer != sender {
        var e :| e in envelopes && e.recipientAccount == peer;
        assert e in envelopes[1..];
      }
      PeerIsUnique(sender, envelopes[1..], peer);
    }
  }

  /** The checks before the transaction pass if and only if the batch is one message to one peer. */
  lemma BatchPassesExactly(sender: AccountId, envelopes: seq<Wire>)
    ensures CheckBatch(sender, envelopes).None?
       <==> exists peer :: IsPeer(sender, envelopes, peer) && OneMessage(sender, envelopes, peer)
  {
    if CheckBatch(sender, envelopes).None? {
      var peer := PeerOf(sender, envelopes);
      PeerIsTheOther(sender, envelopes);
      assert envelopes[0] in envelopes;
      assert IsPeer(sender, envelopes, peer) && OneMessage(sender, envelopes, peer);
    }
    if exists peer :: IsPeer(sender, envelopes, peer) && OneMessage(sender, envelopes, peer) {
      var peer :| IsPeer(sender, envelopes, peer) && OneMessage(sender, envelopes, peer);
      PeerIsUnique(sender, envelopes, peer);
      assert envelopes[0] in envelopes;
    }
  }

  // ----- recipients -----

  /** A device in use: approved, not revoked, of this account, which is enabled. */
  ghost predicate Usable(t: Tables, account: AccountId, device: DeviceId) {
    && device in t.devices && t.devices[device] == Device(account, false, false)
    && account in t.accounts && t.accounts[account].active
  }

  ghost predicate Reached(t: Tables, e: Wire) {
    Usable(t, e.recipientAccount, e.recipientDevice)
  }

  lemma UsableExactly(t: Tables, account: AccountId, device: DeviceId)
    ensures IsActive(t, account, device) <==> Usable(t, account, device)
  {
  }

  ghost predicate Unstored(rows: seq<Row>, id: EnvelopeId) {
    forall r :: r in rows ==> r.wire.envelopeId != id
  }

  /** Bytes of the envelopes that a device in use gets and that are not stored yet. */
  ghost function NewBytes(t: Tables, envelopes: seq<Wire>): nat {
    if envelopes == [] then 0
    else
      var e := envelopes[0];
      (if Reached(t, e) && Unstored(t.rows, e.envelopeId) then |e.ciphertext| else 0)
      + NewBytes(t, envelopes[1..])
  }

  lemma MissingCons(rows: seq<Row>, e: Wire, active: seq<Wire>)
    ensures Missing(rows, [e] + active)
         == (if Unstored(rows, e.envelopeId) then |e.ciphertext| else 0) + Missing(rows, active)
  {
    assert ([e] + active)[1..] == active;
  }

  lemma ActiveHead(t: Tables, envelopes: seq<Wire>)
    requires envelopes != []
    ensures ActiveWires(t, envelopes)
         == (if Reached(t, envelopes[0]) then [envelopes[0]] else []) + ActiveWires(t, envelopes[1..])
  {
    UsableExactly(t, envelopes[0].recipientAccount, envelopes[0].recipientDevice);
  }

  lemma {:induction false} NewBytesAreMissing(t: Tables, envelopes: seq<Wire>)
    ensures Missing(t.rows, ActiveWires(t, envelopes)) == NewBytes(t, envelopes)
    decreases |envelopes|
  {
    if envelopes == [] {
    } else {
      ActiveHead(t, envelopes);
      NewBytesAreMissing(t, envelopes[1..]);
      MissingCons(t.rows, envelopes[0], ActiveWires(t, envelopes[1..]));
      assert [] + ActiveWires(t, envelopes[1..]) == ActiveWires(t, envelopes[1..]);
    }
  }

  // ----- when a batch is accepted -----

  /** The logical message is new and may be inserted, or it is stored with the same metadata. */
  predicate MessageAgrees(
    t: Tables, sender: AccountId, device: DeviceId, peer: AccountId, id: LogicalId, sentAt: int)
  {
    if id in t.logical then
      var l := t.logical[id];
      && l.senderAccount == sender && l.senderDevice == device && l.peer == peer
      && l.conversation == ConversationOf(sender, peer) && l.sentAt == sentAt
    else sender in t.accounts && device in t.devices && peer in t.accounts
  }

  /** No envelope for a device in use bears the id of a different one, stored or in the batch. */
  ghost predicate IdsAgree(t: Tables, sender: AccountId, device: DeviceId, envelopes: seq<Wire>) {
    && (forall e, r :: e in envelopes && Reached(t, e) && r in t.rows && r.wire.envelopeId == e.envelopeId ==>
          r.wire == e && r.senderAccount == sender && r.senderDevice == device)
    && (forall e, f :: e in envelopes && f in envelopes && Reached(t, e) && Reached(t, f) ==>
          (e.envelopeId == f.envelopeId ==> e == f))
  }

  ghost predicate Fitting(t: Tables, sender: AccountId, envelopes: seq<Wire>, limits: Limits, freeDisk: nat) {
    && freeDisk >= limits.freeDisk
    && BytesOf(t.rows, sender) + NewBytes(t, envelopes) <= limits.account
    && Bytes(t.rows) + NewBytes(t, envelopes) <= limits.total
  }

  ghost predicate Welcome(
    t: Tables, sender: AccountId, device: DeviceId, envelopes: seq<Wire>, peer: AccountId, limits: Limits, freeDisk: nat)
  {
    && IsPeer(sender, envelopes, peer) && OneMessage(sender, envelopes, peer)
    && MessageAgrees(t, sender, device, peer, envelopes[0].logicalId, envelopes[0].sentAt)
    && (exists e :: e in envelopes && e.recipientAccount == peer && Reached(t, e))
    && IdsAgree(t, sender, device, envelopes)
    && Fitting(t, sender, envelopes, limits, freeDisk)
  }

  lemma AgreesExactly(t: Tables, sender: AccountId, device: DeviceId, envelopes: seq<Wire>, now: int, peer: AccountId)
    requires envelopes != [] && IsPeer(sender, envelopes, peer)
    ensures var id := envelopes[0].logicalId; var wanted := NewLogical(sender, device, envelopes, now);
            MessageAgrees(t, sender, device, peer, id, envelopes[0].sentAt)
            <==> if id in t.logical then SameMetadata(t.logical[id], wanted) else LogicalKeys(t, wanted)
  {
    PeerIsUnique(sender, envelopes, peer);
  }

  lemma ReachedExactly(t: Tables, sender: AccountId, envelopes: seq<Wire>, peer: AccountId)
    requires IsPeer(sender, envelopes, peer)
    ensures PeerReached(sender, peer, ActiveWires(t, envelopes))
       <==> exists e :: e in envelopes && e.recipientAccount == peer && Reached(t, e)
  {
    var active := ActiveWires(t, envelopes);
    forall e | e in envelopes ensures e in active <==> Reached(t, e) {
      UsableExactly(t, e.recipientAccount, e.recipientDevice);
    }
    if active != [] {
      assert active[0] in active && active[0] in envelopes;
    }
  }

  lemma IdsAgreeExactly(t: Tables, sender: AccountId, device: DeviceId, envelopes: seq<Wire>)
    requires UniqueIds(t.rows)
    ensures NoConflict(t.rows, sender, device, ActiveWires(t, envelopes)) <==> IdsAgree(t, sender, device, envelopes)
  {
    var active := ActiveWires(t, envelopes);
    forall e | e in envelopes ensures e in active <==> Reached(t, e) {
      UsableExactly(t, e.recipientAccount, e.recipientDevice);
    }
    forall r | r in t.rows ensures Lookup(t.rows, r.wire.envelopeId) == Some(r) {
      LookupUnique(t.rows, r);
    }
  }

  lemma UsageIs(t: Tables, sender: AccountId, envelopes: seq<Wire>)
    requires Inv(t)
    ensures UsageOf(t.usage, sender) == BytesOf(t.rows, sender) && SumMap(t.usage) == Bytes(t.rows)
    ensures Missing(t.rows, ActiveWires(t, envelopes)) == NewBytes(t, envelopes)
  {
    NewBytesAreMissing(t, envelopes);
    TotalUsage(t.usage, t.rows);
    if sender !in t.usage {
      NoRowsNoBytes(t.rows, sender);
    }
  }

  lemma FittingExactly(t: Tables, sender: AccountId, envelopes: seq<Wire>, limits: Limits, freeDisk: nat)
    requires Inv(t)
    ensures var missing := Missing(t.rows, ActiveWires(t, envelopes));
            Fitting(t, sender, envelopes, limits, freeDisk)
            <==> freeDisk >= limits.freeDisk && UsageOf(t.usage, sender) + missing <= limits.account
                 && SumMap(t.usage) + missing <= limits.total
  {
    UsageIs(t, sender, envelopes);
  }

  /**
   A batch is stored if and only if it is one message to one peer, agrees with what is stored, reaches
   a device of the peer that is in use, and fits both quotas and the disk.
   */
  lemma AcceptsExactly(
    t: Tables, sender: AccountId, device: DeviceId, envelopes: seq<Wire>, now: int, limits: Limits, freeDisk: nat)
    requires Inv(t)
    ensures StoreEnvelopes(t, sender, device, envelopes, now, limits, freeDisk).Stored?
       <==> exists peer :: Welcome(t, sender, device, envelopes, peer, limits, freeDisk)
  {
    StoreAcceptsExactly(t, sender, device, envelopes, now, limits, freeDisk);
    BatchPassesExactly(sender, envelopes);
    FittingExactly(t, sender, envelopes, limits, freeDisk);
    IdsAgreeExactly(t, sender, device, envelopes);
    if CheckBatch(sender, envelopes).None? {
      var peer :| IsPeer(sender, envelopes, peer) && OneMessage(sender, envelopes, peer);
      AcceptableIsWelcome(t, sender, device, envelopes, now, limits, freeDisk, peer);
      forall other | Welcome(t, sender, device, envelopes, other, limits, freeDisk) ensures other == peer {
        PeerIsUnique(sender, envelopes, other);
        PeerIsUnique(sender, envelopes, peer);
      }
    }
  }

  lemma AcceptableIsWelcome(
    t: Tables, sender: AccountId, device: DeviceId, envelopes: seq<Wire>, now: int, limits: Limits, freeDisk: nat,
    peer: AccountId)
    requires Inv(t) && IsPeer(sender, envelopes, peer) && OneMessage(sender, envelopes, peer)
    requires CheckBatch(sender, envelopes).None?
    ensures Acceptable(t, sender, device, envelopes, now, limits, freeDisk)
       <==> Welcome(t, sender, device, envelopes, peer, limits, freeDisk)
  {
    PeerIsUnique(sender, envelopes, peer);
    AgreesExactly(t, sender, device, envelopes, now, peer);
    ReachedExactly(t, sender, envelopes, peer);
    IdsAgreeExactly(t, sender, device, envelopes);
    FittingExactly(t, sender, envelopes, limits, freeDisk);
  }

  // ----- what an accepted batch adds -----

  /** A row that this batch adds: for a device in use, under a new cursor, not delivered yet. */
  ghost predicate Adds(t: Tables, sender: AccountId, device: DeviceId, envelopes: seq<Wire>, now: int, r: Row) {
    && r.wire in envelopes && Reached(t, r.wire) && Unstored(t.rows, r.wire.envelopeId)
    && r.cursor >= t.nextCursor && r == Row(r.cursor, r.wire, sender, device, now, None)
  }

  ghost predicate Has(rows: seq<Row>, sender: AccountId, device: DeviceId, e: Wire) {
    exists r :: r in rows && r.wire == e && r.senderAccount == sender && r.senderDevice == device
  }

  /** Old rows stay, new rows are for devices in use, and each such device has its envelope. */
  ghost predicate AddedRows(t: Tables, s: Tables, sender: AccountId, device: DeviceId, envelopes: seq<Wire>, now: int) {
    && t.rows <= s.rows
    && (forall r :: r in s.rows ==> r in t.rows || Adds(t, sender, device, envelopes, now, r))
    && (forall e :: e in envelopes && Reached(t, e) ==> Has(s.rows, sender, device, e))
  }

  lemma AcceptedRows(
    t: Tables, sender: AccountId, device: DeviceId, envelopes: seq<Wire>, now: int, limits: Limits, freeDisk: nat)
    requires Inv(t) && Session(t, sender, device)
    requires StoreEnvelopes(t, sender, device, envelopes, now, limits, freeDisk).Stored?
    ensures var s := StoreEnvelopes(t, sender, device, envelopes, now, limits, freeDisk).tables;
            AddedRows(t, s, sender, device, envelopes, now)
  {
    var s := StoreEnvelopes(t, sender, device, envelopes, now, limits, freeDisk).tables;
    var tx, active := StoredSteps(t, sender, device, envelopes, now, limits, freeDisk);
    InsertAllAppends(tx, sender, device, active, now);
    StoreKeepsInv(t, sender, device, envelopes, now, limits, freeDisk);
    forall r | r in s.rows && r !in t.rows ensures Adds(t, sender, device, envelopes, now, r) {
      NewRowAdds(t, tx, s, sender, device, envelopes, active, now, r);
    }
    forall e | e in envelopes && Reached(t, e) ensures Has(s.rows, sender, device, e) {
      UsableExactly(t, e.recipientAccount, e.recipientDevice);
      ActiveIsHeld(t, sender, device, envelopes, now, limits, freeDisk, e);
    }
  }

  lemma NewRowAdds(
    t: Tables, tx: Tables, s: Tables, sender: AccountId, device: DeviceId, envelopes: seq<Wire>, active: seq<Wire>,
    now: int, r: Row)
    requires tx.rows == t.rows && tx.nextCursor == t.nextCursor && active == ActiveWires(t, envelopes)
    requires AppendsRows(tx, s, sender, device, active, now) && UniqueIds(s.rows) && r in s.rows && r !in t.rows
    ensures Adds(t, sender, device, envelopes, now, r)
  {
    var i :| 0 <= i < |s.rows| && s.rows[i] == r;
    assert forall k :: 0 <= k < |t.rows| ==> s.rows[k] == s.rows[..|t.rows|][k] && s.rows[k] in t.rows;
    UsableExactly(t, r.wire.recipientAccount, r.wire.recipientDevice);
    forall q | q in t.rows ensures q.wire.envelopeId != r.wire.envelopeId {
      var j :| 0 <= j < |t.rows| && t.rows[j] == q;
      assert s.rows[..|t.rows|][j] == s.rows[j];
    }
  }

  lemma ActiveIsHeld(
    t: Tables, sender: AccountId, device: DeviceId, envelopes: seq<Wire>, now: int, limits: Limits, freeDisk: nat, e: Wire)
    requires StoreEnvelopes(t, sender, device, envelopes, now, limits, freeDisk).Stored?
    requires e in ActiveWires(t, envelopes)
    ensures Has(StoreEnvelopes(t, sender, device, envelopes, now, limits, freeDisk).tables.rows, sender, device, e)
  {
    StoredBatchIsStillThere(t, sender, device, envelopes, now, limits, freeDisk);
    var active := ActiveWires(t, envelopes);
    var destinations := StoreEnvelopes(t, sender, device, envelopes, now, limits, freeDisk).destinations;
    var i :| 0 <= i < |active| && active[i] == e;
    var rows := StoreEnvelopes(t, sender, device, envelopes, now, limits, freeDisk).tables.rows;
    assert HoldsOne(rows, sender, device, active[i], destinations[i]);
  }

  /** The cursors reported are those of the batch's rows, each with its own device, and no device in use is left out. */
  lemma ReportedCursors(
    t: Tables, sender: AccountId, device: DeviceId, envelopes: seq<Wire>, now: int, limits: Limits, freeDisk: nat)
    requires StoreEnvelopes(t, sender, device, envelopes, now, limits, freeDisk).Stored?
    ensures var outcome := StoreEnvelopes(t, sender, device, envelopes, now, limits, freeDisk);
            && (forall d :: d in outcome.destinations ==>
                  exists r :: r in outcome.tables.rows && r.wire in envelopes && d == (r.wire.recipientDevice, r.cursor))
            && (forall e :: e in envelopes && Reached(t, e) ==>
                  exists d :: d in outcome.destinations && d.0 == e.recipientDevice)
  {
    var outcome := StoreEnvelopes(t, sender, device, envelopes, now, limits, freeDisk);
    StoredBatchIsStillThere(t, sender, device, envelopes, now, limits, freeDisk);
    var active := ActiveWires(t, envelopes);
    forall d | d in outcome.destinations
      ensures exists r :: r in outcome.tables.rows && r.wire in envelopes && d == (r.wire.recipientDevice, r.cursor)
    {
      var i :| 0 <= i < |outcome.destinations| && outcome.destinations[i] == d;
      assert HoldsOne(outcome.tables.rows, sender, device, active[i], d);
      assert active[i] in active;
    }
    forall e | e in envelopes && Reached(t, e) ensures exists d :: d in outcome.destinations && d.0 == e.recipientDevice {
      UsableExactly(t, e.recipientAccount, e.recipientDevice);
      var i :| 0 <= i < |active| && active[i] == e;
      assert HoldsOne(outcome.tables.rows, sender, device, active[i], outcome.destinations[i]);
      assert outcome.destinations[i] in outcome.destinations;
    }
  }

  /** Besides rows and their counters, only the logical message is added, as this sender's to the peer. */
  lemma AcceptedMessage(
    t: Tables, sender: AccountId, device: DeviceId, envelopes: seq<Wire>, now: int, limits: Limits, freeDisk: nat,
    peer: AccountId)
    requires StoreEnvelopes(t, sender, device, envelopes, now, limits, freeDisk).Stored? && IsPeer(sender, envelopes, peer)
    ensures var s := StoreEnvelopes(t, sender, device, envelopes, now, limits, freeDisk).tables;
            && envelopes != []
            && s == t.(logical := s.logical, rows := s.rows, usage := s.usage, nextCursor := s.nextCursor)
            && var e := envelopes[0];
               s.logical == if e.logicalId in t.logical then t.logical
                            else t.logical[e.logicalId :=
                                   Logical(sender, device, peer, ConversationOf(sender, peer), e.sentAt, now, None)]
  {
    PeerIsUnique(sender, envelopes, peer);
    var tx, active := StoredSteps(t, sender, device, envelopes, now, limits, freeDisk);
    InsertAllAppends(tx, sender, device, active, now);
  }

  // ----- why a batch is refused -----

  /** What is wrong with a batch that was refused with this error. */
  ghost predicate Reason(
    t: Tables, sender: AccountId, device: DeviceId, envelopes: seq<Wire>, limits: Limits, freeDisk: nat, error: StoreError)
  {
    match error
    case BadBatchSize => !(1 <= |envelopes| <= 16)
    case MixedLogical => exists e :: e in envelopes && (e.logicalId == 0 || e.logicalId != envelopes[0].logicalId)
    case ManyPeers => forall peer :: !IsPeer(sender, envelopes, peer)
    case InvalidEnvelope => forall peer :: IsPeer(sender, envelopes, peer) ==> !OneMessage(sender, envelopes, peer)
    case DiskPressure => freeDisk < limits.freeDisk
    case ForeignKey =>
      && envelopes != [] && envelopes[0].logicalId !in t.logical
      && forall peer :: IsPeer(sender, envelopes, peer) ==>
           sender !in t.accounts || device !in t.devices || peer !in t.accounts
    case LogicalConflict =>
      && envelopes != [] && envelopes[0].logicalId in t.logical
      && forall peer :: IsPeer(sender, envelopes, peer) ==>
           !MessageAgrees(t, sender, device, peer, envelopes[0].logicalId, envelopes[0].sentAt)
    case RecipientUnavailable =>
      forall peer, e :: IsPeer(sender, envelopes, peer) && e in envelopes && e.recipientAccount == peer ==> !Reached(t, e)
    case EnvelopeConflict => !IdsAgree(t, sender, device, envelopes)
    case AccountQuota => BytesOf(t.rows, sender) + NewBytes(t, envelopes) > limits.account
    case TotalQuota => Bytes(t.rows) + NewBytes(t, envelopes) > limits.total
  }

  lemma BatchReason(
    t: Tables, sender: AccountId, device: DeviceId, envelopes: seq<Wire>, limits: Limits, freeDisk: nat)
    requires CheckBatch(sender, envelopes).Some?
    ensures Reason(t, sender, device, envelopes, limits, freeDisk, CheckBatch(sender, envelopes).value)
  {
    if 1 <= |envelopes| <= 16 {
      assert envelopes[0] in envelopes;
      forall peer | IsPeer(sender, envelopes, peer) ensures PeerOf(sender, envelopes) == peer {
        PeerIsUnique(sender, envelopes, peer);
      }
    }
  }

  /** Every error of a batch that passes the first checks tells what is wrong with it. */
  lemma RefusalReason(
    t: Tables, sender: AccountId, device: DeviceId, envelopes: seq<Wire>, now: int, limits: Limits, freeDisk: nat)
    requires Inv(t) && StoreEnvelopes(t, sender, device, envelopes, now, limits, freeDisk).Refused?
    ensures Reason(t, sender, device, envelopes, limits, freeDisk,
                   StoreEnvelopes(t, sender, device, envelopes, now, limits, freeDisk).error)
  {
    if CheckBatch(sender, envelopes).Some? {
      BatchReason(t, sender, device, envelopes, limits, freeDisk);
    } else if freeDisk >= limits.freeDisk {
      var wanted := NewLogical(sender, device, envelopes, now);
      var ensured := EnsureLogical(t, envelopes[0].logicalId, wanted);
      if ensured.None? || !SameMetadata(ensured.value.logical[envelopes[0].logicalId], wanted) {
        MessageReason(t, sender, device, envelopes, now, limits, freeDisk);
      } else {
        ActiveWiresFrame(t, ensured.value, envelopes);
        IntoReason(t, ensured.value, sender, device, envelopes, now, limits, freeDisk);
      }
    }
  }

  /** The message cannot be inserted, or is stored with other metadata. */
  lemma MessageReason(
    t: Tables, sender: AccountId, device: DeviceId, envelopes: seq<Wire>, now: int, limits: Limits, freeDisk: nat)
    requires envelopes != []
    requires var id := envelopes[0].logicalId; var wanted := NewLogical(sender, device, envelopes, now);
             !(if id in t.logical then SameMetadata(t.logical[id], wanted) else LogicalKeys(t, wanted))
    ensures var error := if envelopes[0].logicalId in t.logical then LogicalConflict else ForeignKey;
            Reason(t, sender, device, envelopes, limits, freeDisk, error)
  {
    forall peer | IsPeer(sender, envelopes, peer)
      ensures !MessageAgrees(t, sender, device, peer, envelopes[0].logicalId, envelopes[0].sentAt)
    {
      AgreesExactly(t, sender, device, envelopes, now, peer);
    }
  }

  /** What each error of the second half stands for. */
  ghost predicate IntoError(
    tx: Tables, sender: AccountId, device: DeviceId, peer: AccountId, active: seq<Wire>, limits: Limits, error: StoreError)
  {
    match error
    case RecipientUnavailable => !PeerReached(sender, peer, active)
    case EnvelopeConflict => !NoConflict(tx.rows, sender, device, active)
    case AccountQuota => UsageOf(tx.usage, sender) + Missing(tx.rows, active) > limits.account
    case TotalQuota => SumMap(tx.usage) + Missing(tx.rows, active) > limits.total
    case _ => false
  }

  lemma IntoErrors(
    tx: Tables, sender: AccountId, device: DeviceId, peer: AccountId, active: seq<Wire>, now: int, limits: Limits)
    requires StoreInto(tx, sender, device, peer, active, now, limits).Refused?
    ensures var error := StoreInto(tx, sender, device, peer, active, now, limits).error;
            IntoError(tx, sender, device, peer, active, limits, error)
  {
    AdditionalIsMissing(tx.rows, active);
    InsertAllSucceedsExactly(tx, sender, device, active, now);
  }

  lemma IntoReason(
    t: Tables, tx: Tables, sender: AccountId, device: DeviceId, envelopes: seq<Wire>, now: int, limits: Limits, freeDisk: nat)
    requires Inv(t) && tx.rows == t.rows && tx.usage == t.usage
    requires StoreInto(tx, sender, device, PeerOf(sender, envelopes), ActiveWires(t, envelopes), now, limits).Refused?
    ensures var peer, active := PeerOf(sender, envelopes), ActiveWires(t, envelopes);
            Reason(t, sender, device, envelopes, limits, freeDisk, StoreInto(tx, sender, device, peer, active, now, limits).error)
  {
    IntoErrors(tx, sender, device, PeerOf(sender, envelopes), ActiveWires(t, envelopes), now, limits);
    forall peer | IsPeer(sender, envelopes, peer)
      ensures PeerOf(sender, envelopes) == peer
      ensures PeerReached(sender, peer, ActiveWires(t, envelopes))
         <==> exists e :: e in envelopes && e.recipientAccount == peer && Reached(t, e)
    {
      PeerIsUnique(sender, envelopes, peer);
      ReachedExactly(t, sender, envelopes, peer);
    }
    IdsAgreeExactly(t, sender, device, envelopes);
    UsageIs(t, sender, envelopes);
  }
}
