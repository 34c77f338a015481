/** An undisturbed pairing ends with an active device that holds the master secret. */
module PairingCompletes {
  import opened Ids
  import opened Pairing

  /** Both devices start from here: one waits without a secret, the other is in no pairing. */
  predicate Ready(w: World) {
    w.p.profile.pending && w.a.session.None?
  }

  /** The channel that the next pairing of these two devices runs on. */
  function Between(w: World, pairing: nat): Channel {
    ChannelOf(pairing, PendingKey, ApproverKey(w.a.next))
  }

  /** Keys are exchanged, and both screens show the same string. */
  function Meet(w: World, pairing: nat): World {
    Step(Step(w, Start(pairing, PendingKey)), PublicArrives(pairing, ApproverKey(w.a.next)))
  }

  lemma Met(w: World, pairing: nat)
    requires Ready(w)
    ensures var s := Meet(w, pairing);
            && s.p.session == Some(Session(Between(w, pairing), false, false))
            && s.a.session == Some(Session(Between(w, pairing), false, false))
            && s.p.profile == w.p.profile && Matching(s)
  {
    assert {PendingKey, ApproverKey(w.a.next)} == {ApproverKey(w.a.next), PendingKey};
    var started := Step(w, Start(pairing, PendingKey));
    assert PublicKey(pairing, ApproverKey(w.a.next)) in started.net;
  }

  // When the user of the approving device confirms: before the other one, after that, or only when
  // the other side's confirmation has arrived.
  datatype Order = First | Second | Last

  /** The users confirm on both sides, and the confirmation arrives. */
  function Confirm(s: World, c: Channel, order: Order): World {
    match order
    case First => Arrive(Step(Step(s, UserConfirmsApprover), UserConfirmsPending), c)
    case Second => Arrive(Step(Step(s, UserConfirmsPending), UserConfirmsApprover), c)
    case Last => Step(Arrive(Step(s, UserConfirmsPending), c), UserConfirmsApprover)
  }

  function Arrive(s: World, c: Channel): World {
    Step(s, ConfirmedArrives(c, SasConfirmed))
  }

  predicate Showing(s: World, c: Channel) {
    s.p.session == Some(Session(c, false, false)) && s.a.session == Some(Session(c, false, false))
  }

  /** The secret went out, and the approving device is done. */
  predicate SecretIsOut(s: World, t: World, c: Channel) {
    && Sealed(c, Bootstrap(MASTER)) in t.net && c in t.sentOn && t.a.session.None?
    && t.p.session == Some(Session(c, true, false)) && t.p.profile == s.p.profile
  }

  lemma ConfirmedBefore(s: World, c: Channel, order: Order)
    requires Showing(s, c) && !order.Last?
    ensures SecretIsOut(s, Confirm(s, c, order), c)
  {
    var here := Step(s, UserConfirmsPending);
    assert Sealed(c, SasConfirmed) in here.net;
    var both := if order.Second? then Step(here, UserConfirmsApprover)
                else Step(Step(s, UserConfirmsApprover), UserConfirmsPending);
    assert both.a.session == Some(Session(c, true, false)) && Sealed(c, SasConfirmed) in both.net;
  }

  lemma ConfirmedLast(s: World, c: Channel)
    requires Showing(s, c)
    ensures SecretIsOut(s, Confirm(s, c, Last), c)
  {
    var here := Step(s, UserConfirmsPending);
    assert Sealed(c, SasConfirmed) in here.net;
    var heard := Arrive(here, c);
    assert heard.a.session == Some(Session(c, false, true)) && Matching(heard);
  }

  lemma Confirmed(s: World, c: Channel, order: Order)
    requires Showing(s, c)
    ensures SecretIsOut(s, Confirm(s, c, order), c)
  {
    if order.Last? {
      ConfirmedLast(s, c);
    } else {
      ConfirmedBefore(s, c, order);
    }
  }

  /** The secret arrives. */
  function Take(t: World, c: Channel): World {
    Step(t, BootstrapArrives(c, Bootstrap(MASTER), true))
  }

  /** The secret and then the activation arrive. */
  function Finish(t: World, c: Channel): World {
    Step(Step(Take(t, c), Forge(Activated)), ActivatedArrives(true))
  }

  lemma Finished(t: World, c: Channel)
    requires Sealed(c, Bootstrap(MASTER)) in t.net && t.p.session == Some(Session(c, true, false)) && t.p.profile.pending
    ensures var taken, u := Take(t, c), Finish(t, c);
            && taken.p.profile == Profile(true, Some(MASTER)) && taken.p.disk == taken.p.profile
            && u.p.profile == Profile(false, Some(MASTER)) && u.p.disk == u.p.profile && u.p.session.None?
            && c in u.installedFrom && u.a == t.a
  {
    assert Accepts(t.p, c, Bootstrap(MASTER));
    assert CanForge(Activated) && Activated in Step(Take(t, c), Forge(Activated)).net;
  }

  /**
   When keys, confirmations and the secret get through, the pairing completes, whoever confirms first:
   the secret is saved as soon as it is there, and in the end the device is active, in memory and on
   disk, with the master secret from the channel that both screens showed.
   */
  lemma PairingEnds(w: World, pairing: nat, order: Order)
    requires Ready(w)
    ensures var c := Between(w, pairing); var t := Confirm(Meet(w, pairing), c, order); var u := Finish(t, c);
            && Take(t, c).p.disk == Profile(true, Some(MASTER))
            && u.p.profile == Profile(false, Some(MASTER)) && u.p.disk == u.p.profile
            && u.p.session.None? && u.a.session.None? && c in u.installedFrom
  {
    var c := Between(w, pairing);
    Met(w, pairing);
    Confirmed(Meet(w, pairing), c, order);
    Finished(Confirm(Meet(w, pairing), c, order), c);
  }
}
