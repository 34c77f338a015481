/** The device roster, its numeric bounds, and what its revision means. */
module RelayRoster {
  // The BootstrapDevice, ActivateDevice and revoke handlers, each as one atomic step.

  import opened Ids
  import opened Sums
  import opened RelayTables
  import opened RelayIntegrity

  const ACTIVE_LIMIT := 8
  const PENDING_LIMIT := 2

  // A frame that changes a roster. `sessionMaster` is the key the session read when it authenticated.
  datatype RosterOp =
    | CreateAccount(account: AccountId)
    | Submit(account: AccountId, device: DeviceId, sessionMaster: Option<nat>, master: nat, certified: bool)
    | Activate(account: AccountId, session: DeviceId, device: DeviceId, revision: nat)
    | RevokeOwn(account: AccountId, device: DeviceId)
    | RevokeByAdmin(account: AccountId, device: DeviceId)
    | Reset(account: AccountId)
    | Delete(account: AccountId)

  // The tables, and per account how many activations succeeded since its last bootstrap.
  datatype Roster = Roster(t: Tables, activations: map<AccountId, nat>)

  function Count(activations: map<AccountId, nat>, account: AccountId): nat {
    if account in activations then activations[account] else 0
  }

  /** The first device of an account, certified by the master key it brings. */
  function SubmitFirst(t: Tables, op: RosterOp): (Tables, bool)
    requires op.Submit?
  {
    if PendingDevices(t, op.account) != {} || !op.certified then (t, false)
    else
      match BootstrapMaster(t, op.account, op.master)
      case None => (t, false)
      case Some(t1) =>
        // two statements without a transaction: the second can fail alone
        match InsertDevice(t1, op.account, op.device, false)
        case None => (t1, false)
        case Some(t2) => (t2, true)
  }

  /** A further device, waiting for approval. */
  function SubmitPending(t: Tables, op: RosterOp): (Tables, bool)
    requires op.Submit?
  {
    if |ActiveDevices(t, op.account)| >= ACTIVE_LIMIT || |PendingDevices(t, op.account)| >= PENDING_LIMIT
       || op.sessionMaster != Some(op.master) || op.certified then
      (t, false)
    else
      match InsertDevice(t, op.account, op.device, true)
      case None => (t, false)
      case Some(t1) => (t1, true)
  }

  /** BootstrapDevice. */
  function SubmitDevice(t: Tables, op: RosterOp): (Tables, bool)
    requires op.Submit?
  {
    if op.device in t.devices && t.devices[op.device].account == op.account then (t, false)
    else if ActiveDevices(t, op.account) == {} && op.sessionMaster.None? then SubmitFirst(t, op)
    else SubmitPending(t, op)
  }

  function Step(r: Roster, op: RosterOp): Roster {
    match op
    case CreateAccount(a) =>
      if a in r.t.accounts then r
      else Roster(r.t.(accounts := r.t.accounts[a := Account(true, None, 0)]), r.activations[a := 0])
    case Submit(a, _, _, _, _) =>
      var t := SubmitDevice(r.t, op).0;
      Roster(t, if a in t.accounts && a in r.t.accounts && t.accounts[a].master != r.t.accounts[a].master
                then r.activations[a := 0] else r.activations)
    case Activate(a, s, d, revision) =>
      // `connection` checks account and device before every frame of an authenticated session
      if !IsActive(r.t, a, s) then r
      else
        (match ActivateDevice(r.t, a, d, revision)
         case None => r
         case Some(t) => Roster(t, r.activations[a := Count(r.activations, a) + 1]))
    case RevokeOwn(a, d) =>
      if d !in DevicesOf(r.t, a) || r.t.devices[d].revoked then r
      else r.(t := CleanupRevoked(SetRevoked(r.t, {d}), d))
    case RevokeByAdmin(a, d) =>
      if d !in DevicesOf(r.t, a) then r
      else r.(t := CleanupRevoked(SetRevoked(r.t, {d}), d))
    case Reset(a) => Roster(ResetDevices(r.t, a), r.activations[a := 0])
    case Delete(a) => Roster(DeleteUser(r.t, a, DELETE_STATEMENTS), r.activations)
  }

  function Run(r: Roster, ops: seq<RosterOp>): Roster
    decreases |ops|
  {
    if ops == [] then r else Run(Step(r, ops[0]), ops[1..])
  }

  /** At most two devices wait, at most nine are active or waiting. */
  ghost predicate Bounded(t: Tables, a: AccountId) {
    && |PendingDevices(t, a)| <= PENDING_LIMIT
    && |ActiveDevices(t, a)| + |PendingDevices(t, a)| <= ACTIVE_LIMIT + 1
  }

  /** The revision is 1 plus the activations since bootstrap; without a master key nothing is active. */
  ghost predicate Revised(r: Roster, a: AccountId) {
    a in r.t.accounts ==>
      if r.t.accounts[a].master.Some? then r.t.accounts[a].revision == 1 + Count(r.activations, a)
      else r.t.accounts[a].revision == 0 && ActiveDevices(r.t, a) == {}
  }

  ghost predicate Sound(r: Roster, a: AccountId) {
    Bounded(r.t, a) && Revised(r, a)
  }

  // ----- how each step moves the two sets -----

  lemma InsertMoves(t: Tables, a: AccountId, d: DeviceId, pending: bool, b: AccountId)
    requires d !in t.devices
    ensures var s := t.(devices := t.devices[d := Device(a, pending, false)]);
            && ActiveDevices(s, b) == ActiveDevices(t, b) + (if b == a && !pending then {d} else {})
            && PendingDevices(s, b) == PendingDevices(t, b) + (if b == a && pending then {d} else {})
  {
  }

  lemma ShrinkRoster(t: Tables, s: Tables, b: AccountId)
    requires ActiveDevices(s, b) <= ActiveDevices(t, b) && PendingDevices(s, b) <= PendingDevices(t, b)
    ensures Bounded(t, b) ==> Bounded(s, b)
  {
    Smaller(ActiveDevices(s, b), ActiveDevices(t, b));
    Smaller(PendingDevices(s, b), PendingDevices(t, b));
  }

  lemma SubmitFirstKeeps(r: Roster, op: RosterOp, b: AccountId)
    requires op.Submit? && Sound(r, b)
    requires ActiveDevices(r.t, op.account) == {}
    ensures var s := SubmitFirst(r.t, op).0;
            && Bounded(s, b)
            && (b == op.account && s != r.t ==> s.accounts[b].master.Some? && s.accounts[b].revision == 1)
            && (b == op.account && s != r.t ==> r.t.accounts[b].master.None?)
            && (b != op.account || s == r.t ==>
                  ActiveDevices(s, b) == ActiveDevices(r.t, b)
                  && (b in s.accounts <==> b in r.t.accounts) && (b in s.accounts ==> s.accounts[b] == r.t.accounts[b]))
  {
    var s := SubmitFirst(r.t, op).0;
    if s != r.t && op.device !in r.t.devices {
      InsertMoves(r.t, op.account, op.device, false, b);
    }
    var t1 := r.t.(devices := s.devices);
    assert ActiveDevices(s, b) == ActiveDevices(t1, b) && PendingDevices(s, b) == PendingDevices(t1, b);
  }

  lemma SubmitPendingKeeps(r: Roster, op: RosterOp, b: AccountId)
    requires op.Submit? && Sound(r, b)
    ensures var s := SubmitPending(r.t, op).0;
            && Bounded(s, b) && s.accounts == r.t.accounts && ActiveDevices(s, b) == ActiveDevices(r.t, b)
  {
    if op.device !in r.t.devices {
      InsertMoves(r.t, op.account, op.device, true, b);
    }
  }

  lemma SubmitKeeps(r: Roster, op: RosterOp, b: AccountId)
    requires op.Submit? && Sound(r, b)
    ensures Sound(Step(r, op), b)
  {
    if ActiveDevices(r.t, op.account) == {} && op.sessionMaster.None? {
      SubmitFirstKeeps(r, op, b);
    } else {
      SubmitPendingKeeps(r, op, b);
    }
  }

  lemma ActivateSets(t: Tables, a: AccountId, d: DeviceId, revision: nat, b: AccountId)
    requires ActivateDevice(t, a, d, revision).Some?
    ensures var s := ActivateDevice(t, a, d, revision).value;
            var moved := if a == b && !t.devices[d].revoked then {d} else {};
            && ActiveDevices(s, b) == ActiveDevices(t, b) + moved
            && PendingDevices(s, b) == PendingDevices(t, b) - moved
            && moved <= PendingDevices(t, b) && moved !! ActiveDevices(t, b)
  {
    var s := ActivateDevice(t, a, d, revision).value;
    var t1 := t.(devices := s.devices);
    assert ActiveDevices(s, b) == ActiveDevices(t1, b) && PendingDevices(s, b) == PendingDevices(t1, b);
  }

  lemma ActivateKeepsBounds(t: Tables, a: AccountId, d: DeviceId, revision: nat, b: AccountId)
    requires ActivateDevice(t, a, d, revision).Some? && Bounded(t, b)
    ensures Bounded(ActivateDevice(t, a, d, revision).value, b)
  {
    ActivateSets(t, a, d, revision, b);
    var moved := if a == b && !t.devices[d].revoked then {d} else {};
  }

  lemma ActivateKeeps(r: Roster, op: RosterOp, b: AccountId)
    requires op.Activate? && Sound(r, b)
    ensures Sound(Step(r, op), b)
  {
    if IsActive(r.t, op.account, op.session) && ActivateDevice(r.t, op.account, op.device, op.revision).Some? {
      assert op.session in ActiveDevices(r.t, op.account);
      ActivateKeepsBounds(r.t, op.account, op.device, op.revision, b);
    }
  }

  lemma RevokeShrinks(t: Tables, mine: set<DeviceId>, b: AccountId)
    ensures ActiveDevices(SetRevoked(t, mine), b) == ActiveDevices(t, b) - mine
    ensures PendingDevices(SetRevoked(t, mine), b) == PendingDevices(t, b) - mine
  {
  }

  lemma CleanupKeepsRoster(t: Tables, d: DeviceId, b: AccountId)
    ensures CleanupRevoked(t, d).devices == t.devices && CleanupRevoked(t, d).accounts == t.accounts
  {
  }

  lemma RevokeKeeps(r: Roster, d: DeviceId, b: AccountId)
    requires Sound(r, b)
    ensures Sound(r.(t := CleanupRevoked(SetRevoked(r.t, {d}), d)), b)
  {
    var t1 := SetRevoked(r.t, {d});
    var s := CleanupRevoked(t1, d);
    CleanupKeepsRoster(t1, d, b);
    RevokeShrinks(r.t, {d}, b);
    assert ActiveDevices(s, b) == ActiveDevices(t1, b) && PendingDevices(s, b) == PendingDevices(t1, b);
    ShrinkRoster(r.t, s, b);
  }

  lemma ResetKeeps(r: Roster, a: AccountId, b: AccountId)
    requires Sound(r, b)
    ensures Sound(Step(r, Reset(a)), b)
  {
    if a in r.t.accounts {
      ShrinkRoster(r.t, ResetDevices(r.t, a), b);
      assert a == b ==> ActiveDevices(r.t, b) <= DevicesOf(r.t, a);
    }
  }

  lemma DeleteKeeps(r: Roster, a: AccountId, b: AccountId)
    requires Sound(r, b)
    ensures Sound(Step(r, Delete(a)), b)
  {
    DeleteDevices(r.t, a, DELETE_STATEMENTS);
    DeleteAccounts(r.t, a, DELETE_STATEMENTS);
    var s := DeleteUser(r.t, a, DELETE_STATEMENTS);
    ShrinkRoster(r.t, s, b);
  }

  lemma StepKeeps(r: Roster, op: RosterOp, b: AccountId)
    requires Sound(r, b) && (forall d :: d in r.t.devices ==> r.t.devices[d].account in r.t.accounts)
    ensures Sound(Step(r, op), b)
  {
    match op
    case CreateAccount(a) =>
      var s := Step(r, op).t;
      assert ActiveDevices(s, b) == ActiveDevices(r.t, b) && PendingDevices(s, b) == PendingDevices(r.t, b);
    case Submit(_, _, _, _, _) => SubmitKeeps(r, op, b);
    case Activate(_, _, _, _) => ActivateKeeps(r, op, b);
    case RevokeOwn(a, d) => RevokeKeeps(r, d, b);
    case RevokeByAdmin(a, d) => RevokeKeeps(r, d, b);
    case Reset(a) => ResetKeeps(r, a, b);
    case Delete(a) => DeleteKeeps(r, a, b);
  }

  lemma StepKeepsOwners(r: Roster, op: RosterOp)
    requires forall d :: d in r.t.devices ==> r.t.devices[d].account in r.t.accounts
    ensures var s := Step(r, op).t; forall d :: d in s.devices ==> s.devices[d].account in s.accounts
  {
    match op
    case Delete(a) =>
      DeleteDevices(r.t, a, DELETE_STATEMENTS);
      DeleteAccounts(r.t, a, DELETE_STATEMENTS);
    case RevokeOwn(_, d) => CleanupKeepsRoster(SetRevoked(r.t, {d}), d, 0);
    case RevokeByAdmin(_, d) => CleanupKeepsRoster(SetRevoked(r.t, {d}), d, 0);
    case CreateAccount(_) =>
    case Submit(_, _, _, _, _) =>
    case Activate(_, _, _, _) =>
    case Reset(_) =>
  }

  /** In every run, every account keeps its roster bounds and the meaning of its revision. */
  lemma {:induction false} RunKeeps(r: Roster, ops: seq<RosterOp>, b: AccountId)
    requires Sound(r, b) && (forall d :: d in r.t.devices ==> r.t.devices[d].account in r.t.accounts)
    ensures Sound(Run(r, ops), b)
    decreases |ops|
  {
    if ops == [] {
    } else {
      StepKeeps(r, ops[0], b);
      StepKeepsOwners(r, ops[0]);
      RunKeeps(Step(r, ops[0]), ops[1..], b);
    }
  }
}
