/** The pairing handlers of the client's `App`, as methods of the two kinds of device. */
module PairingApp {
  import opened Ids
  import opened Pairing

  class PendingDevice {
    var profile: Profile
    var disk: Profile
    var saved: map<nat, Key>
    var session: Option<Session>
    // Channels the user of this device confirmed, and channels a master secret was taken from.
    ghost var confirmedOn: set<Channel>
    ghost var installedOn: set<Channel>

    function Value(): Pending
      reads this
    {
      Pending(profile, disk, saved, session)
    }

    ghost predicate ProfileOk(p: Profile)
      reads this
    {
      && (p.master.Some? ==> p.master == Some(MASTER) && installedOn != {})
      && (!p.pending ==> p.master.Some?)
    }

    /** A secret only ever came from a confirmed channel of this device's key, and activity needs a secret. */
    ghost predicate Valid()
      reads this
    {
      && (session.Some? ==> PendingKey in session.value.channel.ends)
      && (session.Some? && session.value.ours ==> session.value.channel in confirmedOn)
      && installedOn <= confirmedOn && ProfileOk(profile) && ProfileOk(disk)
    }

    constructor ()
      ensures Valid() && Value() == FRESH.p && confirmedOn == {} && installedOn == {}
    {
      profile, disk, saved, session := Profile(true, None), Profile(true, None), map[], None;
      confirmedOn, installedOn := {}, {};
    }

    /** A key from the relay always starts an unconfirmed session. */
    method HandleSasPublic(pairing: nat, key: Key)
      requires Valid()
      modifies this
      ensures Valid() && Value() == ReceivePublic(old(Value()), pairing, key)
      ensures old(profile.pending) ==> Unconfirmed(Value())
      ensures confirmedOn == old(confirmedOn) && installedOn == old(installedOn)
    {
      if !profile.pending {
        return;
      }
      session := Some(Session(ChannelOf(pairing, PendingKey, key), false, false));
      saved := saved[pairing := key];
    }

    /** What leaves the device is at most its confirmation, sealed on the channel just confirmed. */
    method ConfirmPairing() returns (out: set<Packet>)
      requires Valid()
      modifies this
      ensures Valid() && (Value(), out) == ConfirmPending(old(Value()))
      ensures out != {} ==> session.Some? && session.value.channel in confirmedOn
                            && out == {Sealed(session.value.channel, SasConfirmed)}
      ensures old(confirmedOn) <= confirmedOn && installedOn == old(installedOn)
    {
      if session.None? || session.value.ours {
        return {};
      }
      session := Some(session.value.(ours := true));
      confirmedOn := confirmedOn + {session.value.channel};
      out := {Sealed(session.value.channel, SasConfirmed)};
    }

    /** The secret is taken exactly when it comes on the channel of a session confirmed here. */
    method HandleBootstrap(channel: Channel, payload: Payload, saves: bool)
      requires Valid()
      modifies this
      ensures Valid() && Value() == ReceiveBootstrap(old(Value()), channel, payload, saves)
      ensures installedOn == old(installedOn) + (if Accepts(old(Value()), channel, payload) then {channel} else {})
      ensures profile.master != old(profile.master) ==>
                old(session.Some? && session.value.ours && session.value.channel == channel) && channel in confirmedOn
      ensures var taken := old(profile.pending && session.Some? && session.value.ours && session.value.channel == channel)
                           && payload == Bootstrap(MASTER);
              && profile == (if taken then old(profile).(master := Some(MASTER)) else old(profile))
              && disk == (if taken && saves then profile else old(disk)) && session == old(session)
      ensures confirmedOn == old(confirmedOn)
    {
      if !profile.pending || session.None? || !session.value.ours {
        return;
      }
      // what the payload decrypts to on the session's channel, if it does
      var plain := if channel == session.value.channel then Some(payload) else None;
      if plain.None? || !plain.value.Bootstrap? || plain.value.secret != MASTER {
        return;
      }
      profile := profile.(master := Some(plain.value.secret));
      installedOn := installedOn + {channel};
      if saves {
        disk := profile;
      }
    }

    /** The device becomes active only with a secret that came from a confirmed channel. */
    method HandleActivated(saves: bool)
      requires Valid()
      modifies this
      ensures Valid() && Value() == ReceiveActivated(old(Value()), saves)
      ensures old(profile.pending) && !profile.pending ==>
                profile.master == Some(MASTER) && exists c :: c in installedOn && c in confirmedOn
      ensures profile == old(profile).(pending := old(profile.pending && profile.master.None?))
      ensures confirmedOn == old(confirmedOn) && installedOn == old(installedOn)
    {
      if !profile.pending || profile.master.None? {
        return;
      }
      ghost var c :| c in installedOn;
      assert c in confirmedOn;
      profile := profile.(pending := false);
      if saves {
        disk := profile;
        session := None;
      }
    }

    /** After a restart the device is what it saved, and whatever session comes back is unconfirmed. */
    method RestorePairingState(pairing: nat)
      requires Valid()
      modifies this
      ensures Valid() && Value() == RestartPending(old(Value()), pairing)
      ensures Unconfirmed(Value()) && profile == old(disk)
      ensures confirmedOn == old(confirmedOn) && installedOn == old(installedOn)
    {
      profile := disk;
      session := None;
      if profile.pending && pairing in saved {
        session := Some(Session(ChannelOf(pairing, PendingKey, saved[pairing]), false, false));
      }
    }
  }

  class ApprovingDevice {
    var next: nat
    var session: Option<Session>
    // Channels the user confirmed here, channels a confirmation came in on, and channels the secret went out on.
    ghost var confirmedOn: set<Channel>
    ghost var heardOn: set<Channel>
    ghost var sentOn: set<Channel>

    function Value(): Approver
      reads this
    {
      Approver(next, session)
    }

    /** The secret went out only where the user confirmed and the other side's confirmation came in. */
    ghost predicate Valid()
      reads this
    {
      && (session.Some? && session.value.ours ==> session.value.channel in confirmedOn)
      && (session.Some? && session.value.theirs ==> session.value.channel in heardOn)
      && sentOn <= confirmedOn && sentOn <= heardOn
    }

    constructor ()
      ensures Valid() && Value() == FRESH.a && confirmedOn == {} && heardOn == {} && sentOn == {}
    {
      next, session := 0, None;
      confirmedOn, heardOn, sentOn := {}, {}, {};
    }

    /** A new pairing starts on a key never used before, unconfirmed, and sends no secret. */
    method StartPairing(pairing: nat, key: Key) returns (out: set<Packet>)
      requires Valid()
      modifies this
      ensures Valid() && (Value(), out) == Pairing.StartPairing(old(Value()), pairing, key)
      ensures SecretChannels(out) == {} && sentOn == old(sentOn)
      ensures old(session).None? ==> session.Some? && !session.value.ours && !session.value.theirs && next > old(next)
    {
      if session.Some? {
        return {};
      }
      var own := ApproverKey(next);
      next := next + 1;
      session := Some(Session(ChannelOf(pairing, own, key), false, false));
      out := {PublicKey(pairing, own)};
    }

    /** The secret goes out only after both confirmations, on their channel, and ends the session. */
    method FinishPairing() returns (out: set<Packet>)
      requires Valid()
      modifies this
      ensures Valid() && (Value(), out) == Finish(old(Value()))
      ensures sentOn == old(sentOn) + SecretChannels(out)
      ensures out != {} ==> session == None && old(session.Some? && session.value.ours && session.value.theirs)
                            && SecretChannels(out) == {old(session).value.channel}
      ensures confirmedOn == old(confirmedOn) && heardOn == old(heardOn)
    {
      if session.None? || !session.value.ours || !session.value.theirs {
        return {};
      }
      var taken := session.value;
      session := None;
      out := {Sealed(taken.channel, Bootstrap(MASTER))};
      OneSecret(taken.channel);
      sentOn := sentOn + {taken.channel};
    }

    /** Confirming here sends the secret if and only if the other side's confirmation had come in. */
    method ConfirmPairing() returns (out: set<Packet>)
      requires Valid()
      modifies this
      ensures Valid() && (Value(), out) == ConfirmApprover(old(Value()))
      ensures out != {} <==> old(session.Some? && !session.value.ours && session.value.theirs)
      ensures out != {} ==> session == None && SecretChannels(out) == {old(session).value.channel}
                            && old(session).value.channel in heardOn && old(session).value.channel in confirmedOn
      ensures sentOn == old(sentOn) + SecretChannels(out)
    {
      if session.None? || session.value.ours {
        return {};
      }
      session := Some(session.value.(ours := true));
      confirmedOn := confirmedOn + {session.value.channel};
      out := {};
      if session.value.theirs {
        out := FinishPairing();
      }
    }

    /** A confirmation counts only on the session's channel; it sends the secret only if the user confirmed. */
    method HandleSasConfirmed(channel: Channel, payload: Payload) returns (out: set<Packet>)
      requires Valid()
      modifies this
      ensures Valid() && (Value(), out) == ReceiveConfirmed(old(Value()), channel, payload)
      ensures out != {} <==> payload == SasConfirmed
                             && old(session.Some? && session.value.channel == channel && session.value.ours)
      ensures out != {} ==> session == None && SecretChannels(out) == {channel} && channel in confirmedOn && channel in heardOn
      ensures sentOn == old(sentOn) + SecretChannels(out) && confirmedOn == old(confirmedOn)
    {
      if session.None? || channel != session.value.channel || payload != SasConfirmed {
        return {};
      }
      session := Some(session.value.(theirs := true));
      heardOn := heardOn + {channel};
      out := {};
      if session.value.ours {
        out := FinishPairing();
      }
    }
  }

  lemma OneSecret(c: Channel)
    ensures SecretChannels({Sealed(c, Bootstrap(MASTER))}) == {c}
  {
    assert Sealed(c, Bootstrap(MASTER)) in {Sealed(c, Bootstrap(MASTER))};
  }
}
