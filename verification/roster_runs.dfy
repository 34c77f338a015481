/** Runs of the roster from an empty relay: the bounds, the ninth device, and what a revision number admits. */
module RosterRuns {
  import opened Ids
  import opened RelayTables
  import RelayIntegrity
  import opened RelayRoster

  const NOBODY := Roster(NO_TABLES, map[])

  /**
   Over any run from an empty relay: at most 2 devices wait, at most 9 are active or waiting, and the
   revision is one plus the activations since bootstrap.
   */
  lemma BoundsFromStart(ops: seq<RosterOp>, b: AccountId)
    ensures Sound(Run(NOBODY, ops), b)
  {
    assert ActiveDevices(NO_TABLES, b) == {} && PendingDevices(NO_TABLES, b) == {};
    RunKeeps(NOBODY, ops, b);
  }

  lemma {:induction false} RunConcat(r: Roster, first: seq<RosterOp>, rest: seq<RosterOp>)
    ensures Run(r, first + rest) == Run(Run(r, first), rest)
    decreases |first|
  {
    if first == [] {
      assert first + rest == rest;
    } else {
      assert (first + rest)[1..] == first[1..] + rest;
      RunConcat(Step(r, first[0]), first[1..], rest);
    }
  }

  lemma RunTwo(r: Roster, a: RosterOp, b: RosterOp)
    ensures Run(r, [a, b]) == Step(Step(r, a), b)
  {
    assert [a, b][1..] == [b] && [b][1..] == [];
    assert Run(Step(r, a), [b]) == Run(Step(Step(r, a), b), []);
  }

  // ----- one activation for each revision -----

  predicate Forgets(op: RosterOp, a: AccountId) {
    op == Reset(a) || op == Delete(a)
  }

  /** The account has a master key and has reached a revision. */
  predicate Reached(r: Roster, a: AccountId, revision: nat) {
    a in r.t.accounts && r.t.accounts[a].master.Some? && r.t.accounts[a].revision >= revision
  }

  lemma AccountAfterSubmit(t: Tables, op: RosterOp, a: AccountId)
    requires op.Submit? && a in t.accounts && t.accounts[a].master.Some?
    ensures a in SubmitDevice(t, op).0.accounts && SubmitDevice(t, op).0.accounts[a] == t.accounts[a]
  {
  }

  lemma StepKeepsReached(r: Roster, op: RosterOp, a: AccountId, revision: nat)
    requires Reached(r, a, revision) && !Forgets(op, a)
    ensures Reached(Step(r, op), a, revision)
  {
    match op
    case Submit(_, _, _, _, _) => AccountAfterSubmit(r.t, op, a);
    case RevokeOwn(b, d) => CleanupKeepsRoster(SetRevoked(r.t, {d}), d, b);
    case RevokeByAdmin(b, d) => CleanupKeepsRoster(SetRevoked(r.t, {d}), d, b);
    case Delete(b) => DeleteKeepsOthers(r.t, b, a);
    case _ =>
  }

  lemma DeleteKeepsOthers(t: Tables, b: AccountId, a: AccountId)
    requires a != b && a in t.accounts
    ensures a in DeleteUser(t, b, DELETE_STATEMENTS).accounts
    ensures DeleteUser(t, b, DELETE_STATEMENTS).accounts[a] == t.accounts[a]
  {
    RelayIntegrity.DeleteAccounts(t, b, DELETE_STATEMENTS);
  }

  lemma {:induction false} RunKeepsReached(r: Roster, ops: seq<RosterOp>, a: AccountId, revision: nat)
    requires Reached(r, a, revision) && forall op :: op in ops ==> !Forgets(op, a)
    ensures Reached(Run(r, ops), a, revision)
    decreases |ops|
  {
    if ops == [] {
    } else {
      assert !Forgets(ops[0], a);
      StepKeepsReached(r, ops[0], a, revision);
      RunKeepsReached(Step(r, ops[0]), ops[1..], a, revision);
    }
  }

  /**
   Of two activations signed for the same revision of an account, the second fails, whatever happens
   in between, unless the account is reset or deleted there.
   */
  lemma ActivationConflicts(
    before: seq<RosterOp>, first: RosterOp, between: seq<RosterOp>, second: RosterOp)
    requires first.Activate? && second.Activate? && first.account == second.account && first.revision == second.revision
    requires var r := Run(NOBODY, before); Step(r, first) != r
    requires forall op :: op in between ==> !Forgets(op, first.account)
    ensures var r := Run(Step(Run(NOBODY, before), first), between); Step(r, second) == r
  {
    var a, r := first.account, Run(NOBODY, before);
    BoundsFromStart(before, a);
    assert first.session in ActiveDevices(r.t, a);
    assert Reached(Step(r, first), a, first.revision);
    RunKeepsReached(Step(r, first), between, a, first.revision);
  }

  // ----- a run that uses a revision twice -----

  /** A device joins the account with master key `key`: waiting first, then approved by `approver`. */
  function Join(key: nat, device: DeviceId, approver: DeviceId, revision: nat): seq<RosterOp> {
    [Submit(1, device, Some(key), key, false), Activate(1, approver, device, revision)]
  }

  /** The account has n active devices and none waiting, and every device id is below the next one to join. */
  predicate Ready(r: Roster, key: nat, first: DeviceId, n: nat) {
    && 1 in r.t.accounts && r.t.accounts[1] == Account(true, Some(key), n)
    && first in ActiveDevices(r.t, 1) && |ActiveDevices(r.t, 1)| == n && PendingDevices(r.t, 1) == {}
    && forall d :: d in r.t.devices ==> d < first + n
  }

  lemma SubmitWaits(t: Tables, key: nat, device: DeviceId)
    requires 1 in t.accounts && t.accounts[1].master == Some(key) && device !in t.devices
    requires 0 < |ActiveDevices(t, 1)| < ACTIVE_LIMIT && |PendingDevices(t, 1)| < PENDING_LIMIT
    ensures var s := SubmitDevice(t, Submit(1, device, Some(key), key, false)).0;
            && s == t.(devices := t.devices[device := Device(1, true, false)])
            && ActiveDevices(s, 1) == ActiveDevices(t, 1) && PendingDevices(s, 1) == PendingDevices(t, 1) + {device}
  {
  }

  lemma ApproveAdds(t: Tables, device: DeviceId, revision: nat)
    requires 1 in t.accounts && revision == t.accounts[1].revision + 1 && device in PendingDevices(t, 1)
    ensures var next := ActivateDevice(t, 1, device, revision);
            && next.Some?
            && ActiveDevices(next.value, 1) == ActiveDevices(t, 1) + {device}
            && PendingDevices(next.value, 1) == PendingDevices(t, 1) - {device}
            && next.value.devices.Keys == t.devices.Keys
            && next.value.accounts[1] == t.accounts[1].(revision := revision)
  {
  }

  /** Ready, and one more device waits. */
  predicate Asked(r: Roster, key: nat, first: DeviceId, n: nat) {
    && 1 in r.t.accounts && r.t.accounts[1] == Account(true, Some(key), n)
    && first in ActiveDevices(r.t, 1) && |ActiveDevices(r.t, 1)| == n && PendingDevices(r.t, 1) == {first + n}
    && forall d :: d in r.t.devices ==> d <= first + n
  }

  lemma JoinWaits(r: Roster, key: nat, first: DeviceId, n: nat)
    requires Ready(r, key, first, n) && 0 < n < ACTIVE_LIMIT
    ensures Asked(Step(r, Submit(1, first + n, Some(key), key, false)), key, first, n)
  {
    SubmitWaits(r.t, key, first + n);
  }

  lemma JoinApproves(r: Roster, key: nat, first: DeviceId, n: nat)
    requires Asked(r, key, first, n)
    ensures var s := Step(r, Activate(1, first, first + n, n + 1)); Ready(s, key, first, n + 1) && s != r
  {
    ApproveAdds(r.t, first + n, n + 1);
    assert first + n !in ActiveDevices(r.t, 1);
  }

  lemma JoinGrows(r: Roster, key: nat, first: DeviceId, n: nat)
    requires Ready(r, key, first, n) && 0 < n < ACTIVE_LIMIT
    ensures var ops := Join(key, first + n, first, n + 1);
            && Ready(Run(r, ops), key, first, n + 1)
            && Step(Step(r, ops[0]), ops[1]) != Step(r, ops[0])
  {
    var ops := Join(key, first + n, first, n + 1);
    JoinWaits(r, key, first, n);
    JoinApproves(Step(r, ops[0]), key, first, n);
    RunTwo(r, ops[0], ops[1]);
  }

  lemma BootstrapReady(t: Tables, activations: map<AccountId, nat>, key: nat, first: DeviceId)
    requires 1 in t.accounts && t.accounts[1].active && t.accounts[1].master.None?
    requires ActiveDevices(t, 1) == {} && PendingDevices(t, 1) == {}
    requires forall d :: d in t.devices ==> d < first
    ensures Ready(Step(Roster(t, activations), Submit(1, first, None, key, true)), key, first, 1)
  {
    var s := Step(Roster(t, activations), Submit(1, first, None, key, true)).t;
    assert ActiveDevices(s, 1) == {first} && PendingDevices(s, 1) == {};
  }

  lemma EmptyAccount()
    ensures var s := Step(NOBODY, CreateAccount(1)).t;
            && 1 in s.accounts && s.accounts[1].active && s.accounts[1].master.None?
            && ActiveDevices(s, 1) == {} && PendingDevices(s, 1) == {}
  {
  }

  /** The account is created, and its first device bootstraps it. */
  function Founding(key: nat): seq<RosterOp> {
    [CreateAccount(1), Submit(1, 1, None, key, true)]
  }

  lemma FoundingReady(key: nat)
    ensures Ready(Run(NOBODY, Founding(key)), key, 1, 1)
  {
    var ops := Founding(key);
    EmptyAccount();
    BootstrapReady(Step(NOBODY, ops[0]).t, Step(NOBODY, ops[0]).activations, key, 1);
    RunTwo(NOBODY, ops[0], ops[1]);
  }

  /**
   The exception is real: after a reset, the same revision number is accepted a second time. The two
   activations are the last operations of the two joins.
   */
  lemma ResetFreesRevision()
    ensures var r := Step(Run(NOBODY, Founding(5)), Join(5, 2, 1, 2)[0]);
            var again := Step(Run(Step(r, Join(5, 2, 1, 2)[1]), [Reset(1), Submit(1, 3, None, 6, true)]), Join(6, 4, 3, 2)[0]);
            Step(r, Join(5, 2, 1, 2)[1]) != r && Step(again, Join(6, 4, 3, 2)[1]) != again
  {
    FoundingReady(5);
    var founded := Run(NOBODY, Founding(5));
    JoinGrows(founded, 5, 1, 1);
    var joined := Run(founded, Join(5, 2, 1, 2));
    RunTwo(founded, Join(5, 2, 1, 2)[0], Join(5, 2, 1, 2)[1]);
    var cleared := Step(joined, Reset(1));
    ResetEmpties(joined.t);
    BootstrapReady(cleared.t, cleared.activations, 6, 3);
    RunTwo(joined, Reset(1), Submit(1, 3, None, 6, true));
    JoinGrows(Step(cleared, Submit(1, 3, None, 6, true)), 6, 3, 1);
  }

  lemma ResetEmpties(t: Tables)
    requires 1 in t.accounts && t.accounts[1].active
    ensures var s := ResetDevices(t, 1);
            && 1 in s.accounts && s.accounts[1].active && s.accounts[1].master.None? && s.devices.Keys == t.devices.Keys
            && ActiveDevices(s, 1) == {} && PendingDevices(s, 1) == {}
  {
  }

  // ----- nine devices -----

  /** The founding device and n more, each approved before the next one asks. */
  function Joins(key: nat, n: nat): seq<RosterOp> {
    if n == 0 then Founding(key) else Joins(key, n - 1) + Join(key, n + 1, 1, n + 1)
  }

  lemma {:induction false} JoinsReady(key: nat, n: nat)
    requires n < ACTIVE_LIMIT
    ensures Ready(Run(NOBODY, Joins(key, n)), key, 1, n + 1)
    decreases n
  {
    if n == 0 {
      FoundingReady(key);
    } else {
      JoinsReady(key, n - 1);
      JoinGrows(Run(NOBODY, Joins(key, n - 1)), key, 1, n);
      RunConcat(NOBODY, Joins(key, n - 1), Join(key, n + 1, 1, n + 1));
    }
  }

  /** The bound of nine is reached: two devices may ask while seven are active, and both be approved. */
  lemma NineDevicesAreReached(key: nat)
    ensures var asked := Run(NOBODY, Joins(key, 6) + [Submit(1, 8, Some(key), key, false), Submit(1, 9, Some(key), key, false)]);
            && |ActiveDevices(asked.t, 1)| == 7 && |PendingDevices(asked.t, 1)| == 2
            && |ActiveDevices(Run(asked, [Activate(1, 1, 8, 8), Activate(1, 1, 9, 9)]).t, 1)| == 9
  {
    JoinsReady(key, 6);
    var seven := Run(NOBODY, Joins(key, 6));
    var eighth, ninth := Submit(1, 8, Some(key), key, false), Submit(1, 9, Some(key), key, false);
    SubmitWaits(seven.t, key, 8);
    var one := Step(seven, eighth);
    SubmitWaits(one.t, key, 9);
    var asked := Step(one, ninth);
    RunTwo(seven, eighth, ninth);
    RunConcat(NOBODY, Joins(key, 6), [eighth, ninth]);
    BothApproved(asked);
  }

  lemma BothApproved(asked: Roster)
    requires 1 in asked.t.accounts && asked.t.accounts[1].active && asked.t.accounts[1].revision == 7
    requires 1 in ActiveDevices(asked.t, 1) && |ActiveDevices(asked.t, 1)| == 7 && PendingDevices(asked.t, 1) == {8, 9}
    ensures |ActiveDevices(Run(asked, [Activate(1, 1, 8, 8), Activate(1, 1, 9, 9)]).t, 1)| == 9
  {
    var a, b := Activate(1, 1, 8, 8), Activate(1, 1, 9, 9);
    ApproveAdds(asked.t, 8, 8);
    var one := Step(asked, a);
    ApproveAdds(one.t, 9, 9);
    RunTwo(asked, a, b);
    assert 8 !in ActiveDevices(asked.t, 1) && 9 !in ActiveDevices(one.t, 1);
  }
}
