/** How devices join, read off the tables themselves. */
module RosterAnswers {
  import opened Ids
  import opened RelayTables
  import RelayIntegrity
  import opened RelayRoster
  import Runs = RelayRun

  /** Devices of the account that were approved and not revoked. */
  predicate InUse(t: Tables, a: AccountId, d: DeviceId) {
    d in t.devices && t.devices[d] == Device(a, false, false)
  }

  /** Devices of the account that wait for approval. */
  predicate Waits(t: Tables, a: AccountId, d: DeviceId) {
    d in t.devices && t.devices[d] == Device(a, true, false)
  }

  ghost predicate NobodyInUse(t: Tables, a: AccountId) {
    forall d: DeviceId :: !InUse(t, a, d)
  }

  lemma SetsAre(t: Tables, a: AccountId)
    ensures forall d: DeviceId :: d in ActiveDevices(t, a) <==> InUse(t, a, d)
    ensures forall d: DeviceId :: d in PendingDevices(t, a) <==> Waits(t, a, d)
  {
  }

  // ----- one device asks -----

  /** A device that the account knows, revoked or not, is refused. */
  lemma KnownDeviceIsRefused(t: Tables, op: RosterOp)
    requires op.Submit? && op.device in t.devices && t.devices[op.device].account == op.account
    ensures SubmitDevice(t, op) == (t, false)
  {
  }

  /**
   The first device joins at once if and only if it is certified, the account has no master key and no
   device waits; its master key becomes the account's, at revision 1. When its id is taken by another
   account's device, the key is set and the device refused.
   */
  lemma FirstDeviceExactly(t: Tables, op: RosterOp)
    requires op.Submit? && NobodyInUse(t, op.account) && op.sessionMaster.None?
    requires op.device in t.devices ==> t.devices[op.device].account != op.account
    ensures var (s, ok) := SubmitDevice(t, op); var a := op.account;
            && (ok <==> && op.certified && a in t.accounts && t.accounts[a].master.None?
                        && (forall d: DeviceId :: !Waits(t, a, d)) && op.device !in t.devices)
            && (ok ==> s == t.(accounts := t.accounts[a := Account(t.accounts[a].active, Some(op.master), 1)],
                               devices := t.devices[op.device := Device(a, false, false)]))
            && (!ok && s != t ==>
                  && op.certified && op.device in t.devices && a in t.accounts && t.accounts[a].master.None?
                  && s == t.(accounts := t.accounts[a := Account(t.accounts[a].active, Some(op.master), 1)]))
  {
    SetsAre(t, op.account);
    assert ActiveDevices(t, op.account) == {};
    assert PendingDevices(t, op.account) == {} <==> forall d: DeviceId :: !Waits(t, op.account, d);
  }

  /**
   A further device waits if and only if it names the master key the session has seen, brings no
   certificate, and fewer than 8 devices are in use and fewer than 2 wait; nothing else changes.
   */
  lemma FurtherDeviceExactly(t: Tables, op: RosterOp)
    requires op.Submit? && !(NobodyInUse(t, op.account) && op.sessionMaster.None?)
    requires op.device in t.devices ==> t.devices[op.device].account != op.account
    ensures var (s, ok) := SubmitDevice(t, op); var a := op.account;
            && (ok <==> && op.sessionMaster == Some(op.master) && !op.certified
                        && |set d | d in t.devices && InUse(t, a, d)| < 8
                        && |set d | d in t.devices && Waits(t, a, d)| < 2
                        && a in t.accounts && op.device !in t.devices)
            && (ok ==> s == t.(devices := t.devices[op.device := Device(a, true, false)]))
            && (!ok ==> s == t)
  {
    SetsAre(t, op.account);
    var a := op.account;
    assert ActiveDevices(t, a) == set d | d in t.devices && InUse(t, a, d);
    assert PendingDevices(t, a) == set d | d in t.devices && Waits(t, a, d);
    if ActiveDevices(t, a) == {} {
      assert NobodyInUse(t, a);
    }
  }

  /**
   An activation counts if and only if a device in use of an enabled account asks for it, for the next
   revision and a device of the account that waits; then that device no longer waits, the revision
   moves on, and nothing else changes.
   */
  lemma ActivatesExactly(r: Roster, a: AccountId, session: DeviceId, d: DeviceId, revision: nat)
    ensures var t, s := r.t, Step(r, Activate(a, session, d, revision)).t;
            if && InUse(t, a, session) && a in t.accounts && t.accounts[a].active
               && revision == t.accounts[a].revision + 1
               && d in t.devices && t.devices[d].account == a && t.devices[d].pending
            then s == t.(devices := t.devices[d := Device(a, false, t.devices[d].revoked)],
                         accounts := t.accounts[a := Account(true, t.accounts[a].master, revision)])
            else s == t
  {
  }

  // ----- over runs -----

  /** This operation puts the device in use: as a certified first device, or approved by one in use. */
  ghost predicate Approves(t: Tables, op: RosterOp, a: AccountId, d: DeviceId) {
    || (op.Submit? && op.account == a && op.device == d && op.certified && NobodyInUse(t, a))
    || (op.Activate? && op.account == a && op.device == d && InUse(t, a, op.session)
        && a in t.accounts && t.accounts[a].active && op.revision == t.accounts[a].revision + 1
        && Waits(t, a, d))
  }

  lemma SubmitApproves(t: Tables, op: RosterOp, a: AccountId, d: DeviceId)
    requires op.Submit? && InUse(SubmitDevice(t, op).0, a, d) && !InUse(t, a, d)
    ensures Approves(t, op, a, d)
  {
    SetsAre(t, op.account);
    if op.device in t.devices && t.devices[op.device].account == op.account {
    } else if ActiveDevices(t, op.account) == {} && op.sessionMaster.None? {
      FirstDeviceExactly(t, op);
    } else {
      FurtherDeviceExactly(t, op);
    }
  }

  lemma StepApproves(r: Roster, op: RosterOp, a: AccountId, d: DeviceId)
    requires InUse(Step(r, op).t, a, d) && !InUse(r.t, a, d)
    ensures Approves(r.t, op, a, d)
  {
    match op
    case Submit(_, _, _, _, _) => SubmitApproves(r.t, op, a, d);
    case RevokeOwn(_, k) => CleanupKeepsRoster(SetRevoked(r.t, {k}), k, a);
    case RevokeByAdmin(_, k) => CleanupKeepsRoster(SetRevoked(r.t, {k}), k, a);
    case Delete(b) => RelayIntegrity.DeleteDevices(r.t, b, DELETE_STATEMENTS);
    case _ =>
  }

  ghost predicate ApprovedAt(r: Roster, ops: seq<RosterOp>, k: nat, a: AccountId, d: DeviceId)
    requires k < |ops|
  {
    Approves(Run(r, ops[..k]).t, ops[k], a, d)
  }

  /** Whatever happens, a device comes into use only by a certificate or by the approval of one in use. */
  lemma {:induction false} InUseMeansApproved(r: Roster, ops: seq<RosterOp>, a: AccountId, d: DeviceId)
    requires InUse(Run(r, ops).t, a, d) && !InUse(r.t, a, d)
    ensures exists k: nat :: k < |ops| && ApprovedAt(r, ops, k, a, d)
    decreases |ops|
  {
    var s := Step(r, ops[0]);
    if InUse(s.t, a, d) {
      StepApproves(r, ops[0], a, d);
      assert ops[..0] == [] && ApprovedAt(r, ops, 0, a, d);
    } else {
      InUseMeansApproved(s, ops[1..], a, d);
      var k: nat :| k < |ops[1..]| && ApprovedAt(s, ops[1..], k, a, d);
      assert ops[..k + 1][0] == ops[0] && ops[..k + 1][1..] == ops[1..][..k];
      assert ApprovedAt(r, ops, k + 1, a, d);
    }
  }

  // ----- keys, events and account states -----

  /** A published key is there once; a claimed one is gone, and only a device in use has its keys claimed. */
  lemma KeysExactly(t: Tables, a: AccountId, d: DeviceId, key: nat, keys: set<nat>)
    ensures var s := Runs.Apply(t, Runs.Aside(Runs.PublishPrekeys(d, keys)));
            s == t.(prekeys := if d in t.devices then t.prekeys + (set k | k in keys :: Prekey(d, k)) else t.prekeys)
    ensures var s := Runs.Apply(t, Runs.Aside(Runs.ClaimPrekey(a, d, key)));
            s == t.(prekeys := if InUse(t, a, d) then t.prekeys - {Prekey(d, key)} else t.prekeys)
  {
    SetsAre(t, a);
  }

  /** What an administrator's switch changes: the state of that one account. */
  lemma StateExactly(t: Tables, a: AccountId, active: bool)
    requires a in t.accounts
    ensures Runs.Apply(t, Runs.Aside(Runs.SetState(a, active)))
         == t.(accounts := t.accounts[a := Account(active, t.accounts[a].master, t.accounts[a].revision)])
  {
  }

  /** A pairing event is stored if and only if a device of the account waits at one of its ends. */
  lemma EventExactly(t: Tables, a: AccountId, sender: DeviceId, pairing: DeviceId, target: DeviceId, id: nat)
    requires id !in t.events
    ensures var s := Runs.Apply(t, Runs.Aside(Runs.AddPairingEvent(a, sender, pairing, target, id)));
            && (id in s.events <==>
                  && sender in t.devices && target in t.devices && t.devices[target].account == a
                  && Waits(t, a, pairing) && pairing in {sender, target})
            && s == t.(events := if id in s.events then t.events[id := PairingEvent(sender, target)] else t.events)
  {
    SetsAre(t, a);
  }

  /** An event goes if and only if its target acknowledges it or it expires. */
  lemma EventGoesExactly(t: Tables, target: DeviceId, id: nat, overdue: set<nat>, i: nat)
    requires i in t.events
    ensures var s := Runs.Apply(t, Runs.Aside(Runs.AckPairingEvent(target, id)));
            && (i in s.events <==> !(i == id && t.events[i].target == target))
            && (i in s.events ==> s.events[i] == t.events[i])
    ensures var s := Runs.Apply(t, Runs.Aside(Runs.ExpirePairingEvents(overdue)));
            && (i in s.events <==> i !in overdue) && (i in s.events ==> s.events[i] == t.events[i])
  {
  }
}
