/** Retransmission over whole runs: what happened in between does not matter while the rows are there. */
module RelayResend {
  import opened Ids
  import opened RelayTables
  import opened RelayIntegrity
  import opened RelayStore
  import opened RelayRun

  /** A logical message that two states both have is the same message. */
  ghost predicate KeepsLogical(t: Tables, s: Tables) {
    forall id :: id in t.logical && id in s.logical ==> SameMetadata(t.logical[id], s.logical[id])
  }

  lemma StoreKeepsLogical(t: Tables, op: RelayOp)
    requires op.Store?
    ensures KeepsLogical(t, Apply(t, op))
  {
    if Apply(t, op) != t {
      var tx, active := StoredSteps(t, op.sender, op.device, op.envelopes, op.now, op.limits, op.freeDisk);
      InsertAllAppends(tx, op.sender, op.device, active, op.now);
    }
  }

  lemma AckKeepsLogical(t: Tables, from: DeviceId, id: EnvelopeId, now: int)
    ensures KeepsLogical(t, Ack(t, from, id, now).0)
  {
  }

  lemma RemovalKeepsLogical(t: Tables, op: RelayOp)
    requires Inv(t) && (op.Prune? || op.Retire? || op.Membership?)
    ensures KeepsLogical(t, Apply(t, op))
  {
    match op
    case Prune(c, cutoff, deliveredOnly) => PruneRemovesTargets(t, c, cutoff, deliveredOnly);
    case Retire(_, _) =>
    case Membership(m) => MembershipKeepsLogical(t, m);
  }

  lemma MembershipKeepsLogical(t: Tables, m: Roster.RosterOp)
    requires ForeignKeys(t)
    ensures KeepsLogical(t, Apply(t, Membership(m)))
  {
    if m.Delete? {
      DeleteLogical(t, m.account, DELETE_STATEMENTS);
    } else if m.RevokeOwn? || m.RevokeByAdmin? {
      RevocationIs(t, m);
    } else {
      MembershipReshapes(t, m);
    }
  }

  lemma ApplyKeepsLogical(t: Tables, op: RelayOp)
    requires Inv(t)
    ensures KeepsLogical(t, Apply(t, op))
  {
    match op
    case Store(_, _, _, _, _, _) => StoreKeepsLogical(t, op);
    case Acknowledge(from, id, now) => AckKeepsLogical(t, from, id, now);
    case Aside(side) => SideReshapes(t, side);
    case _ => RemovalKeepsLogical(t, op);
  }

  /** A row that is there after a run, under a cursor from before it, was there all along, with its message. */
  lemma {:induction false} RowWasThere(t: Tables, ops: seq<RelayOp>, r: Row)
    requires Inv(t) && r in Run(t, ops).rows && r.cursor < t.nextCursor
    ensures Inv(Run(t, ops)) && Known(t.rows, r)
    ensures var id := r.wire.logicalId;
            id in t.logical && id in Run(t, ops).logical && SameMetadata(t.logical[id], Run(t, ops).logical[id])
    decreases |ops|
  {
    RunKeepsInv(t, ops);
    assert RowMatches(Run(t, ops), r);
    if ops == [] {
      assert SameRow(r, r);
    } else {
      var s := Apply(t, ops[0]);
      ApplyKeepsInv(t, ops[0]);
      ApplyFollows(t, ops[0], 0);
      RowWasThere(s, ops[1..], r);
      var q :| q in s.rows && SameRow(q, r);
      assert Known(t.rows, q);
      var p :| p in t.rows && SameRow(p, q);
      assert SameRow(p, r);
      assert RowMatches(t, p);
      ApplyKeepsLogical(t, ops[0]);
    }
  }

  /** Every row that acceptance reported is still stored. */
  ghost predicate StillStored(s: Tables, destinations: Destinations) {
    forall i :: 0 <= i < |destinations| ==> exists r :: r in s.rows && r.cursor == destinations[i].1
  }

  lemma HeldOnce(t: Tables, ops: seq<RelayOp>, sender: AccountId, device: DeviceId, e: Wire, d: (DeviceId, nat))
    requires Inv(t) && HoldsOne(t.rows, sender, device, e, d)
    requires exists r :: r in Run(t, ops).rows && r.cursor == d.1
    ensures HoldsOne(Run(t, ops).rows, sender, device, e, d)
    ensures var id := e.logicalId;
            id in t.logical && id in Run(t, ops).logical && SameMetadata(t.logical[id], Run(t, ops).logical[id])
  {
    var held :| held in t.rows && held.cursor == d.1 && Persisted(held, sender, device, e);
    var r :| r in Run(t, ops).rows && r.cursor == d.1;
    RowWasThere(t, ops, r);
    var q :| q in t.rows && SameRow(q, r);
    SameCursorSameRow(t.rows, q, held);
  }

  lemma BatchSurvives(
    t: Tables, sender: AccountId, device: DeviceId, envelopes: seq<Wire>, after: Tables, destinations: Destinations,
    ops: seq<RelayOp>)
    requires envelopes != [] && CheckBatch(sender, envelopes).None? && ActiveWires(t, envelopes) != []
    requires Inv(after) && StillThere(t, after, sender, device, envelopes, destinations)
    requires ActiveWires(Run(after, ops), envelopes) == ActiveWires(t, envelopes)
    requires StillStored(Run(after, ops), destinations)
    ensures StillThere(t, Run(after, ops), sender, device, envelopes, destinations)
  {
    var s, active := Run(after, ops), ActiveWires(t, envelopes);
    forall i | 0 <= i < |active| ensures HoldsOne(s.rows, sender, device, active[i], destinations[i]) {
      HeldOnce(after, ops, sender, device, active[i], destinations[i]);
    }
    HeldOnce(after, ops, sender, device, active[0], destinations[0]);
    assert active[0] in envelopes;
  }

  /** What acceptance establishes. */
  lemma Acceptance(
    t: Tables, sender: AccountId, device: DeviceId, envelopes: seq<Wire>, now: int, limits: Limits, freeDisk: nat)
    requires Inv(t) && IsActive(t, sender, device) && WithinQuota(t, limits)
    requires StoreEnvelopes(t, sender, device, envelopes, now, limits, freeDisk).Stored?
    ensures envelopes != [] && CheckBatch(sender, envelopes).None? && ActiveWires(t, envelopes) != []
    ensures var first := StoreEnvelopes(t, sender, device, envelopes, now, limits, freeDisk);
            && Inv(first.tables) && WithinQuota(first.tables, limits)
            && StillThere(t, first.tables, sender, device, envelopes, first.destinations)
  {
    StoreKeepsInv(t, sender, device, envelopes, now, limits, freeDisk);
    StoreKeepsQuota(t, sender, device, envelopes, now, limits, freeDisk);
    StoredBatchIsStillThere(t, sender, device, envelopes, now, limits, freeDisk);
    var tx, active := StoredSteps(t, sender, device, envelopes, now, limits, freeDisk);
  }

  lemma AfterRun(
    t: Tables, sender: AccountId, device: DeviceId, envelopes: seq<Wire>, after: Tables, destinations: Destinations,
    ops: seq<RelayOp>, limits: Limits)
    requires envelopes != [] && CheckBatch(sender, envelopes).None? && ActiveWires(t, envelopes) != []
    requires Inv(after) && WithinQuota(after, limits) && forall op :: op in ops ==> FixedLimits(op, limits)
    requires StillThere(t, after, sender, device, envelopes, destinations)
    requires ActiveWires(Run(after, ops), envelopes) == ActiveWires(t, envelopes)
    requires StillStored(Run(after, ops), destinations)
    ensures Unique(Run(after, ops)) && WithinQuota(Run(after, ops), limits)
    ensures StillThere(t, Run(after, ops), sender, device, envelopes, destinations)
  {
    RunKeepsInv(after, ops);
    RunKeepsQuota(after, ops, limits);
    BatchSurvives(t, sender, device, envelopes, after, destinations, ops);
  }

  /**
   A batch accepted at `t` and sent again after any run of the relay, with the same recipients active
   and its rows not yet cleaned, is accepted with the same cursors and changes no table.
   */
  lemma RetransmissionAfterRun(
    t: Tables, sender: AccountId, device: DeviceId, envelopes: seq<Wire>, now: int, limits: Limits, freeDisk: nat,
    after: Tables, destinations: Destinations, ops: seq<RelayOp>, later: int, freeLater: nat)
    requires Inv(t) && IsActive(t, sender, device) && WithinQuota(t, limits)
    requires StoreEnvelopes(t, sender, device, envelopes, now, limits, freeDisk) == Stored(after, destinations)
    requires freeLater >= limits.freeDisk && forall op :: op in ops ==> FixedLimits(op, limits)
    requires ActiveWires(Run(after, ops), envelopes) == ActiveWires(t, envelopes)
    requires StillStored(Run(after, ops), destinations)
    ensures StoreEnvelopes(Run(after, ops), sender, device, envelopes, later, limits, freeLater)
         == Stored(Run(after, ops), destinations)
  {
    Acceptance(t, sender, device, envelopes, now, limits, freeDisk);
    AfterRun(t, sender, device, envelopes, after, destinations, ops, limits);
    RetransmissionChangesNothing(t, Run(after, ops), sender, device, envelopes, now, later, limits, freeDisk, freeLater);
  }
}
