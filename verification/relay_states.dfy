/** A disabled account: nothing is stored from it or for it until it is enabled. */
module RelayStates {
  import opened Ids
  import opened RelayTables
  import opened RelayIntegrity
  import opened RelayStore
  import opened RelayAccepts
  import opened RelayRun

  predicate Off(t: Tables, a: AccountId) {
    a in t.accounts ==> !t.accounts[a].active
  }

  /** What switches an account on: an administrator, or its creation. */
  predicate Enables(t: Tables, op: RelayOp, a: AccountId) {
    op == Aside(SetState(a, true)) || (op == Membership(Roster.CreateAccount(a)) && a !in t.accounts)
  }

  predicate Concerns(r: Row, a: AccountId) {
    r.senderAccount == a || r.wire.recipientAccount == a
  }

  lemma StoreSparesDisabled(t: Tables, op: RelayOp, a: AccountId, r: Row)
    requires Inv(t) && Off(t, a) && op.Store? && r in Apply(t, op).rows && Concerns(r, a)
    ensures r in t.rows
  {
    if Apply(t, op) != t {
      UsableExactly(t, op.sender, op.device);
      AcceptedRows(t, op.sender, op.device, op.envelopes, op.now, op.limits, op.freeDisk);
    }
  }

  lemma SubmitKeepsState(t: Tables, op: Roster.RosterOp, a: AccountId)
    requires op.Submit? && Off(t, a)
    ensures Off(Roster.SubmitDevice(t, op).0, a)
  {
  }

  lemma MembershipKeepsOff(t: Tables, op: Roster.RosterOp, a: AccountId)
    requires Off(t, a) && !Enables(t, Membership(op), a)
    ensures Off(Apply(t, Membership(op)), a)
  {
    match op
    case Submit(_, _, _, _, _) => SubmitKeepsState(t, op, a);
    case RevokeOwn(_, d) => RevocationIs(t, op);
    case RevokeByAdmin(_, d) => RevocationIs(t, op);
    case Delete(b) => DeleteAccounts(t, b, DELETE_STATEMENTS);
    case _ =>
  }

  lemma StoreKeepsAccounts(t: Tables, op: RelayOp)
    requires op.Store?
    ensures Apply(t, op).accounts == t.accounts
  {
    if Apply(t, op) != t {
      var tx, active := StoredSteps(t, op.sender, op.device, op.envelopes, op.now, op.limits, op.freeDisk);
      InsertAllAppends(tx, op.sender, op.device, active, op.now);
    }
  }

  lemma StaysOff(t: Tables, op: RelayOp, a: AccountId)
    requires Inv(t) && Off(t, a) && !Enables(t, op, a)
    ensures Off(Apply(t, op), a)
  {
    match op
    case Store(sender, device, envelopes, now, limits, freeDisk) =>
      StoreKeepsAccounts(t, op);
    case Membership(m) => MembershipKeepsOff(t, m, a);
    case _ =>
  }

  lemma NothingAdded(t: Tables, op: RelayOp, a: AccountId, r: Row)
    requires Inv(t) && Off(t, a) && r in Apply(t, op).rows && Concerns(r, a)
    ensures Known(t.rows, r)
  {
    if op.Store? {
      StoreSparesDisabled(t, op, a, r);
      assert SameRow(r, r);
    } else {
      RowsAreKnown(t, op, r);
    }
  }

  /** Only a store adds rows. */
  lemma RowsAreKnown(t: Tables, op: RelayOp, r: Row)
    requires Inv(t) && !op.Store? && r in Apply(t, op).rows
    ensures Known(t.rows, r)
  {
    ApplyFollows(t, op, 0);
    OnlyStoresAdvance(t, op);
  }

  ghost predicate NeverEnabled(t: Tables, ops: seq<RelayOp>, a: AccountId)
    decreases |ops|
  {
    ops != [] ==> !Enables(t, ops[0], a) && NeverEnabled(Apply(t, ops[0]), ops[1..], a)
  }

  /**
   From a state in which an account is disabled, and as long as nobody enables it, every row from it
   or for it was there before.
   */
  lemma {:induction false} DisabledGetsNothing(t: Tables, ops: seq<RelayOp>, a: AccountId, r: Row)
    requires Inv(t) && Off(t, a) && NeverEnabled(t, ops, a)
    requires r in Run(t, ops).rows && Concerns(r, a)
    ensures Off(Run(t, ops), a) && Known(t.rows, r)
    decreases |ops|
  {
    if ops == [] {
      assert SameRow(r, r);
    } else {
      var s := Apply(t, ops[0]);
      ApplyKeepsInv(t, ops[0]);
      StaysOff(t, ops[0], a);
      DisabledGetsNothing(s, ops[1..], a, r);
      var q :| q in s.rows && SameRow(q, r);
      NothingAdded(t, ops[0], a, q);
      var p :| p in t.rows && SameRow(p, q);
      assert SameRow(p, r);
    }
  }
}
