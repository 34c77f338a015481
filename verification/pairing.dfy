/** Device pairing, with restarts of either side and a relay that may interfere. */
module Pairing {
  // The relay may substitute keys, replay, drop and reorder. Encryption, Diffie-Hellman and the short
  // authentication string are ideal: a channel is its pairing id and the two public keys, and only
  // the owner of one of them can seal. Either side may restart at any time.

  import opened Ids

  // Whose key pair it is. The approver makes a new one for every pairing it starts.
  datatype Key = PendingKey | ApproverKey(n: nat) | ForeignKey(n: nat)

  datatype Channel = Channel(pairing: nat, ends: set<Key>)

  function ChannelOf(pairing: nat, own: Key, peer: Key): Channel {
    Channel(pairing, {own, peer})
  }

  // The account's master secret; a public key identifies its secret.
  const MASTER: nat := 1

  datatype Payload = SasConfirmed | Bootstrap(secret: nat)

  datatype Packet = PublicKey(pairing: nat, key: Key) | Sealed(channel: Channel, payload: Payload) | Activated

  datatype Session = Session(channel: Channel, ours: bool, theirs: bool)

  // ----- the pending device -----

  datatype Profile = Profile(pending: bool, master: Option<nat>)

  // Profile in memory and on disk, the keys kept with pairing notifications, and the volatile session.
  datatype Pending = Pending(profile: Profile, disk: Profile, saved: map<nat, Key>, session: Option<Session>)

  /** "sas_public". */
  function ReceivePublic(p: Pending, pairing: nat, key: Key): Pending {
    if !p.profile.pending then p
    else
      p.(session := Some(Session(ChannelOf(pairing, PendingKey, key), false, false)),
         saved := p.saved[pairing := key])
  }

  /** confirm_pairing on the pending side; what it seals, if anything. */
  function ConfirmPending(p: Pending): (Pending, set<Packet>) {
    if p.session.None? || p.session.value.ours then (p, {})
    else
      (p.(session := Some(p.session.value.(ours := true))), {Sealed(p.session.value.channel, SasConfirmed)})
  }

  /** The device takes a master secret only on the channel of its session, after its own confirmation. */
  predicate Accepts(p: Pending, channel: Channel, payload: Payload) {
    && p.profile.pending && p.session.Some? && p.session.value.ours
    && channel == p.session.value.channel && payload == Bootstrap(MASTER)
  }

  /** "bootstrap"; the profile reaches the disk unless a later statement fails. */
  function ReceiveBootstrap(p: Pending, channel: Channel, payload: Payload, saved: bool): Pending {
    if !Accepts(p, channel, payload) then p
    else
      var profile := p.profile.(master := Some(payload.secret));
      p.(profile := profile, disk := if saved then profile else p.disk)
  }

  /** "device_activated". */
  function ReceiveActivated(p: Pending, saved: bool): Pending {
    if !p.profile.pending || p.profile.master.None? then p
    else
      var profile := p.profile.(pending := false);
      p.(profile := profile, disk := if saved then profile else p.disk, session := if saved then None else p.session)
  }

  /** A restart; a saved pairing comes back unconfirmed. */
  function RestartPending(p: Pending, pairing: nat): Pending {
    p.(profile := p.disk,
       session := if p.disk.pending && pairing in p.saved
                  then Some(Session(ChannelOf(pairing, PendingKey, p.saved[pairing]), false, false)) else None)
  }

  // ----- the approver -----

  datatype Approver = Approver(next: nat, session: Option<Session>)

  /** start_pairing, with the key that the relay says is the pending device's. */
  function StartPairing(a: Approver, pairing: nat, key: Key): (Approver, set<Packet>) {
    if a.session.Some? then (a, {})
    else
      var own := ApproverKey(a.next);
      (Approver(a.next + 1, Some(Session(ChannelOf(pairing, own, key), false, false))), {PublicKey(pairing, own)})
  }

  /** finish_pairing_as_approver: the session ends, and only then the secret is sealed. */
  function Finish(a: Approver): (Approver, set<Packet>) {
    if a.session.None? || !a.session.value.ours || !a.session.value.theirs then (a, {})
    else (a.(session := None), {Sealed(a.session.value.channel, Bootstrap(MASTER))})
  }

  /** confirm_pairing on the approver's side. */
  function ConfirmApprover(a: Approver): (Approver, set<Packet>) {
    if a.session.None? || a.session.value.ours then (a, {})
    else
      var b := a.(session := Some(a.session.value.(ours := true)));
      if b.session.value.theirs then Finish(b) else (b, {})
  }

  /** "sas_confirmed". */
  function ReceiveConfirmed(a: Approver, channel: Channel, payload: Payload): (Approver, set<Packet>) {
    if a.session.None? || channel != a.session.value.channel || payload != SasConfirmed then (a, {})
    else
      var b := a.(session := Some(a.session.value.(theirs := true)));
      if b.session.value.ours then Finish(b) else (b, {})
  }

  // ----- the world -----

  // Both devices, everything ever sent, and the history: channels each side confirmed, channels the
  // secret was sealed on, and channels it was installed from.
  datatype World = World(
    p: Pending,
    a: Approver,
    net: set<Packet>,
    confirmedHere: set<Channel>,
    confirmedThere: set<Channel>,
    sentOn: set<Channel>,
    installedFrom: set<Channel>)

  datatype Event =
    | Start(pairing: nat, key: Key)
    | PublicArrives(pairing: nat, key: Key)
    | UserConfirmsPending
    | UserConfirmsApprover
    | ConfirmedArrives(channel: Channel, payload: Payload)
    | BootstrapArrives(channel: Channel, payload: Payload, saved: bool)
    | ActivatedArrives(saved: bool)
    | PendingRestarts(pairing: nat)
    | ApproverRestarts
    | Forge(packet: Packet)

  /** The relay can seal on a channel if it owns one of its keys. */
  predicate Foreign(c: Channel) {
    exists k :: k in c.ends && k.ForeignKey?
  }

  /** The two ends are the pending device and the approver. */
  predicate Honest(c: Channel) {
    exists k :: k in c.ends && k.ApproverKey? && c.ends == {PendingKey, k}
  }

  predicate CanForge(packet: Packet) {
    packet.Sealed? ==> Foreign(packet.channel)
  }

  /** The user confirms after comparing: both screens show the same short authentication string. */
  predicate Matching(w: World) {
    w.p.session.Some? && w.a.session.Some? && w.p.session.value.channel == w.a.session.value.channel
  }

  function SecretChannels(packets: set<Packet>): set<Channel> {
    set k | k in packets && k.Sealed? && k.payload.Bootstrap? :: k.channel
  }

  function Sent(w: World, a: Approver, packets: set<Packet>): World {
    w.(a := a, net := w.net + packets, sentOn := w.sentOn + SecretChannels(packets))
  }

  function Step(w: World, e: Event): World {
    match e
    case Start(pairing, key) =>
      var (a, out) := StartPairing(w.a, pairing, key);
      Sent(w, a, out)
    case PublicArrives(pairing, key) =>
      if PublicKey(pairing, key) !in w.net then w else w.(p := ReceivePublic(w.p, pairing, key))
    case UserConfirmsPending =>
      if !Matching(w) then w
      else
        var (p, out) := ConfirmPending(w.p);
        w.(p := p, net := w.net + out, confirmedHere := w.confirmedHere + {w.p.session.value.channel})
    case UserConfirmsApprover =>
      if !Matching(w) then w
      else
        var (a, out) := ConfirmApprover(w.a);
        Sent(w.(confirmedThere := w.confirmedThere + {w.a.session.value.channel}), a, out)
    case ConfirmedArrives(channel, payload) =>
      if Sealed(channel, payload) !in w.net then w
      else
        var (a, out) := ReceiveConfirmed(w.a, channel, payload);
        Sent(w, a, out)
    case BootstrapArrives(channel, payload, saved) =>
      if Sealed(channel, payload) !in w.net then w
      else
        w.(p := ReceiveBootstrap(w.p, channel, payload, saved),
           installedFrom := w.installedFrom + if Accepts(w.p, channel, payload) then {channel} else {})
    case ActivatedArrives(saved) =>
      if Activated !in w.net then w else w.(p := ReceiveActivated(w.p, saved))
    case PendingRestarts(pairing) => w.(p := RestartPending(w.p, pairing))
    case ApproverRestarts => w.(a := w.a.(session := None))
    case Forge(packet) => if CanForge(packet) then w.(net := w.net + {packet}) else w
  }

  function Run(w: World, events: seq<Event>): World
    decreases |events|
  {
    if events == [] then w else Run(Step(w, events[0]), events[1..])
  }

  const FRESH := World(
    Pending(Profile(true, None), Profile(true, None), map[], None), Approver(0, None), {}, {}, {}, {}, {})

  // ----- what is kept -----

  /** The pending device only ever talks on channels of its own key. */
  ghost predicate PendingOk(w: World) {
    w.p.session.Some? ==>
      && PendingKey in w.p.session.value.channel.ends
      && (w.p.session.value.ours ==> Honest(w.p.session.value.channel) && w.p.session.value.channel in w.confirmedHere)
  }

  ghost predicate ApproverEnd(c: Channel) {
    exists k, peer :: k in c.ends && k.ApproverKey? && peer in c.ends && c.ends == {k, peer}
  }

  ghost predicate ApproverOk(w: World) {
    w.a.session.Some? ==>
      var s := w.a.session.value;
      && ApproverEnd(s.channel)
      && (s.ours ==> Honest(s.channel) && s.channel in w.confirmedThere)
      && (s.theirs && Honest(s.channel) ==> s.channel in w.confirmedHere)
  }

  /** On a channel between the two devices, only they have sealed anything. */
  ghost predicate SealsOk(w: World) {
    forall c, payload :: Sealed(c, payload) in w.net && Honest(c) ==>
      if payload.SasConfirmed? then c in w.confirmedHere else c in w.sentOn
  }

  ghost predicate HistoryOk(w: World) {
    && (forall c :: c in w.sentOn ==> Honest(c) && c in w.confirmedHere && c in w.confirmedThere)
    && (forall c :: c in w.installedFrom ==> c in w.sentOn && c in w.confirmedHere)
  }

  ghost predicate Installed(w: World, profile: Profile) {
    && (profile.master.Some? ==> profile.master == Some(MASTER) && w.installedFrom != {})
    && (!profile.pending ==> profile.master.Some?)
  }

  ghost predicate Ok(w: World) {
    PendingOk(w) && ApproverOk(w) && SealsOk(w) && HistoryOk(w) && Installed(w, w.p.profile) && Installed(w, w.p.disk)
  }

  lemma HonestIsNotForeign(c: Channel)
    requires Honest(c)
    ensures !Foreign(c)
  {
  }

  /** A channel both screens show is between the two devices. */
  lemma MatchingIsHonest(c: Channel)
    requires PendingKey in c.ends && ApproverEnd(c)
    ensures Honest(c)
  {
    var k, peer :| k in c.ends && k.ApproverKey? && peer in c.ends && c.ends == {k, peer};
    assert PendingKey == peer;
    assert c.ends == {PendingKey, k};
  }

  lemma StartKeepsOk(w: World, pairing: nat, key: Key)
    requires Ok(w)
    ensures Ok(Step(w, Start(pairing, key)))
  {
    var own := ApproverKey(w.a.next);
    if w.a.session.None? {
      var c := ChannelOf(pairing, own, key);
      assert own in c.ends && key in c.ends;
      assert SecretChannels({PublicKey(pairing, own)}) == {};
    } else {
      assert SecretChannels({}) == {};
    }
  }

  lemma ConfirmPendingKeepsOk(w: World)
    requires Ok(w)
    ensures Ok(Step(w, UserConfirmsPending))
  {
    if Matching(w) {
      MatchingIsHonest(w.p.session.value.channel);
    }
  }

  /** What finishing needs, and what it leaves. */
  lemma FinishKeepsOk(w: World, w1: World, a: Approver)
    requires Ok(w1) && a.session.Some? && ApproverOk(w1.(a := a)) && w1.a == w.a
    ensures var (b, out) := Finish(a); Ok(Sent(w1, b, out))
  {
    var (b, out) := Finish(a);
    var c := a.session.value.channel;
    if a.session.value.ours && a.session.value.theirs {
      var seal := Sealed(c, Bootstrap(MASTER));
      assert SecretChannels(out) == {c} by {
        assert seal in out;
      }
    } else {
      assert SecretChannels(out) == {};
    }
  }

  lemma SentNothing(w: World, a: Approver)
    ensures Sent(w, a, {}) == w.(a := a)
  {
    assert SecretChannels({}) == {};
  }

  lemma ConfirmApproverKeepsOk(w: World)
    requires Ok(w)
    ensures Ok(Step(w, UserConfirmsApprover))
  {
    if Matching(w) {
      MatchingIsHonest(w.a.session.value.channel);
      var w1 := w.(confirmedThere := w.confirmedThere + {w.a.session.value.channel});
      var b := w.a.(session := Some(w.a.session.value.(ours := true)));
      SentNothing(w1, w.a);
      SentNothing(w1, b);
      FinishKeepsOk(w, w1, b);
    }
  }

  lemma ConfirmedArrivesKeepsOk(w: World, c: Channel, payload: Payload)
    requires Ok(w)
    ensures Ok(Step(w, ConfirmedArrives(c, payload)))
  {
    SentNothing(w, w.a);
    if Sealed(c, payload) in w.net && w.a.session.Some? && c == w.a.session.value.channel && payload == SasConfirmed {
      var b := w.a.(session := Some(w.a.session.value.(theirs := true)));
      SentNothing(w, b);
      FinishKeepsOk(w, w, b);
    }
  }

  lemma BootstrapKeepsOk(w: World, c: Channel, payload: Payload, saved: bool)
    requires Ok(w)
    ensures Ok(Step(w, BootstrapArrives(c, payload, saved)))
  {
  }

  lemma ForgeKeepsOk(w: World, packet: Packet)
    requires Ok(w)
    ensures Ok(Step(w, Forge(packet)))
  {
    if packet.Sealed? && Honest(packet.channel) {
      HonestIsNotForeign(packet.channel);
    }
  }

  lemma StepKeepsOk(w: World, e: Event)
    requires Ok(w)
    ensures Ok(Step(w, e))
  {
    match e
    case Start(pairing, key) => StartKeepsOk(w, pairing, key);
    case UserConfirmsPending => ConfirmPendingKeepsOk(w);
    case UserConfirmsApprover => ConfirmApproverKeepsOk(w);
    case ConfirmedArrives(c, payload) => ConfirmedArrivesKeepsOk(w, c, payload);
    case BootstrapArrives(c, payload, saved) => BootstrapKeepsOk(w, c, payload, saved);
    case Forge(packet) => ForgeKeepsOk(w, packet);
    case _ =>
  }

  lemma {:induction false} RunKeepsOk(w: World, events: seq<Event>)
    requires Ok(w)
    ensures Ok(Run(w, events))
    decreases |events|
  {
    if events == [] {
    } else {
      StepKeepsOk(w, events[0]);
      RunKeepsOk(Step(w, events[0]), events[1..]);
    }
  }

  /** The master secret is sealed only on a channel that both ends confirmed and the relay cannot open. */
  lemma SecretOnlyOnConfirmedChannel(events: seq<Event>, c: Channel)
    requires c in Run(FRESH, events).sentOn
    ensures c in Run(FRESH, events).confirmedHere && c in Run(FRESH, events).confirmedThere && !Foreign(c)
  {
    RunKeepsOk(FRESH, events);
    HonestIsNotForeign(c);
  }

  /** The secret is installed only from a channel this device confirmed, on which the approver sent it. */
  lemma InstalledFromConfirmedChannel(events: seq<Event>, c: Channel)
    requires c in Run(FRESH, events).installedFrom
    ensures c in Run(FRESH, events).confirmedHere && c in Run(FRESH, events).sentOn
  {
    RunKeepsOk(FRESH, events);
  }

  /** A device that has left the pending state, in memory or on disk, has installed the secret. */
  lemma ActiveOnlyAfterInstalling(events: seq<Event>)
    ensures var w := Run(FRESH, events);
            !w.p.profile.pending || !w.p.disk.pending ==> w.installedFrom != {}
    ensures var w := Run(FRESH, events);
            && (!w.p.profile.pending ==> w.p.profile.master == Some(MASTER))
            && (!w.p.disk.pending ==> w.p.disk.master == Some(MASTER))
  {
    RunKeepsOk(FRESH, events);
  }

  /** The user has not confirmed the current session, if there is one. */
  predicate Unconfirmed(p: Pending) {
    p.session.Some? ==> !p.session.value.ours
  }

  /** Until its user confirms, an unconfirmed device installs nothing, whatever arrives or restarts. */
  lemma {:induction false} UnconfirmedInstallsNothing(w: World, events: seq<Event>)
    requires Unconfirmed(w.p) && forall e :: e in events ==> !e.UserConfirmsPending?
    ensures var s := Run(w, events);
            && Unconfirmed(s.p) && s.installedFrom == w.installedFrom
            && s.p.profile.master in {w.p.profile.master, w.p.disk.master}
            && s.p.disk.master in {w.p.profile.master, w.p.disk.master}
    decreases |events|
  {
    if events == [] {
    } else {
      UnconfirmedInstallsNothing(Step(w, events[0]), events[1..]);
    }
  }

  /**
   A restart forgets a confirmation: over any run after it the secret is not installed before the
   user confirms again, and a device that had saved none to disk still has none.
   */
  lemma RestartNeedsNewConfirmation(w: World, pairing: nat, events: seq<Event>)
    requires forall e :: e in events ==> !e.UserConfirmsPending?
    ensures var s := Run(Step(w, PendingRestarts(pairing)), events);
            s.installedFrom == w.installedFrom && s.p.profile.master == w.p.disk.master == s.p.disk.master
  {
    UnconfirmedInstallsNothing(Step(w, PendingRestarts(pairing)), events);
  }
}
