/** The store against the history of the run: what was received is there until it is deleted. */
module DeliveryHistory {
  import opened Ids
  import opened RelayTables
  import opened LocalTables
  import Commits = LocalCommits
  import opened ClientSync
  import opened MessageHistory
  import opened Delivery
  import opened DeliveryPull

  // ----- the history of a run -----

  function Entries(me: Me, w: World, e: Event): seq<Entry> {
    match e
    case HandleReply(after, batch, verdicts) =>
      if Reply(after, batch) in w.net && |verdicts| == |batch.rows| && AllPlausible(me, w.composed, verdicts)
      then BatchLog(w.local, batch, verdicts) else []
    case HandlePush(row, verdict) =>
      if Push(row) in w.net && Plausible(me, w.composed, verdict) then BatchLog(w.local, PushOf(row), [verdict]) else []
    case Compose(id, m, _) => if Unused(w, id) then [Wrote(id, m)] else []
    case DeleteHere(peer, username, syncId, at) =>
      var c := ConversationOf(me.account, peer);
      if syncId !in w.composed && DeleteEverywhere(w.local, peer, username, c, syncId, at).Some? then [Dropped(c)] else []
    case _ => []
  }

  ghost function History(me: Me, w: World, events: seq<Event>): seq<Entry>
    decreases |events|
  {
    if events == [] then [] else Entries(me, w, events[0]) + History(me, Step(me, w, events[0]), events[1..])
  }

  // ----- the store agrees with its history -----

  lemma DeleteHereAgrees(me: Me, w: World, f: Messages, e: Event)
    requires Agrees(w.local.messages, f) && e.DeleteHere?
    ensures Agrees(Step(me, w, e).local.messages, Filed(f, Entries(me, w, e)))
  {
    var c := ConversationOf(me.account, e.peer);
    if Entries(me, w, e) != [] {
      OneEntry(f, Dropped(c));
      DeletionAgrees(w.local, f, e.peer, e.username, c, e.syncId, e.deletedAt);
    }
  }

  lemma ComposeAgrees(me: Me, w: World, f: Messages, e: Event)
    requires Agrees(w.local.messages, f) && e.Compose?
    ensures Agrees(Step(me, w, e).local.messages, Filed(f, Entries(me, w, e)))
  {
    if Unused(w, e.id) {
      OneEntry(f, Wrote(e.id, e.message));
      Commits.OutgoingIsQueued(w.local, e.id, e.message, e.frame);
    }
  }

  lemma BatchEventAgrees(me: Me, w: World, f: Messages, e: Event)
    requires Agrees(w.local.messages, f) && (e.HandleReply? || e.HandlePush?)
    ensures Agrees(Step(me, w, e).local.messages, Filed(f, Entries(me, w, e)))
  {
    match e
    case HandleReply(after, batch, verdicts) =>
      if Entries(me, w, e) != [] || Step(me, w, e) != w {
        BatchAgrees(w.local, f, batch, verdicts);
      }
    case HandlePush(row, verdict) =>
      if Entries(me, w, e) != [] || Step(me, w, e) != w {
        BatchAgrees(w.local, f, PushOf(row), [verdict]);
      }
  }

  lemma CompletionAgrees(t: Local, f: Messages, id: LogicalId, statements: nat)
    requires Agrees(t.messages, f)
    ensures Agrees(CompleteStatements(t, id, statements).messages, f)
  {
    var removed := t.(outbox := t.outbox - {id});
    StatusAgrees(MarkSynced(removed, id), f, id, Sent);
  }

  /** Steps that bring or delete no message. */
  lemma OtherStepAgrees(me: Me, w: World, f: Messages, e: Event)
    requires Agrees(w.local.messages, f)
    requires !e.HandleReply? && !e.HandlePush? && !e.Compose? && !e.DeleteHere?
    ensures Agrees(Step(me, w, e).local.messages, f)
  {
    if e.HandleAccepted? {
      CompletionAgrees(w.local, f, e.id, e.statements);
    } else if e.NoteDelivered? {
      StatusAgrees(w.local, f, e.id, Status.Delivered);
    } else {
      assert Step(me, w, e).local.messages == w.local.messages;
    }
  }

  lemma StepAgrees(me: Me, w: World, f: Messages, e: Event)
    requires Agrees(w.local.messages, f)
    ensures Agrees(Step(me, w, e).local.messages, Filed(f, Entries(me, w, e)))
  {
    if e.HandleReply? || e.HandlePush? {
      BatchEventAgrees(me, w, f, e);
    } else if e.Compose? {
      ComposeAgrees(me, w, f, e);
    } else if e.DeleteHere? {
      DeleteHereAgrees(me, w, f, e);
    } else {
      OtherStepAgrees(me, w, f, e);
    }
  }

  /** Over any run the stored messages are exactly those that the run's history leaves. */
  lemma {:induction false} StoreIsHistory(me: Me, w: World, events: seq<Event>, f: Messages)
    requires Agrees(w.local.messages, f)
    ensures Agrees(Run(me, w, events).local.messages, Filed(f, History(me, w, events)))
    decreases |events|
  {
    if events == [] {
    } else {
      var entries, s := Entries(me, w, events[0]), Step(me, w, events[0]);
      StepAgrees(me, w, f, events[0]);
      StoreIsHistory(me, s, events[1..], Filed(f, entries));
      FiledConcat(f, entries, History(me, s, events[1..]));
    }
  }

  // ----- committed rows -----

  lemma StepCommitsEntries(me: Me, w: World, e: Event)
    ensures Step(me, w, e).committed == w.committed + TakenRows(Entries(me, w, e))
  {
    match e
    case HandleReply(after, batch, verdicts) =>
      if Entries(me, w, e) != [] || Step(me, w, e) != w {
        BatchLogRows(w.local, batch, verdicts);
      }
    case HandlePush(row, verdict) =>
      if Entries(me, w, e) != [] || Step(me, w, e) != w {
        BatchLogRows(w.local, PushOf(row), [verdict]);
      }
    case _ => QuietCommits(me, w, e);
  }

  lemma QuietCommits(me: Me, w: World, e: Event)
    requires !e.HandleReply? && !e.HandlePush?
    ensures Step(me, w, e).committed == w.committed && TakenRows(Entries(me, w, e)) == []
  {
    TakenNoted(Entries(me, w, e));
    if !AtRelay(e) && !e.RequestSync? {
      LocalStepIsQuiet(me, w, e);
    }
  }

  /** The rows of the history are the rows committed, in order. */
  lemma {:induction false} CommittedIsHistory(me: Me, w: World, events: seq<Event>)
    ensures Run(me, w, events).committed == w.committed + TakenRows(History(me, w, events))
    decreases |events|
  {
    if events == [] {
    } else {
      var s := Step(me, w, events[0]);
      StepCommitsEntries(me, w, events[0]);
      CommittedIsHistory(me, s, events[1..]);
      TakenJoined(w.committed, Entries(me, w, events[0]), History(me, s, events[1..]));
    }
  }

  // ----- what was received is there -----

  /**
   Over any run of a device and the relay: a message that was received, or written here, is stored at
   the end, unchanged but for a higher status, unless its conversation was deleted afterwards. If its
   id was new, it is the very message that came.
   */
  lemma ReceivedIsStored(me: Me, w: World, events: seq<Event>, i: nat)
    requires i < |History(me, w, events)| && Brings(History(me, w, events)[i]).Some?
    ensures StoredOrDeleted(w.local.messages, History(me, w, events), i, Run(me, w, events).local.messages)
  {
    AgreesWithItself(w.local.messages);
    StoreIsHistory(me, w, events, w.local.messages);
    BroughtSince(w.local.messages, History(me, w, events), i, Run(me, w, events).local.messages);
  }

  /** A message stored when a delivery update about it was handled is at least delivered, until it is deleted. */
  lemma NotedIsDelivered(me: Me, w: World, events: seq<Event>, i: nat, id: LogicalId)
    requires i < |History(me, w, events)| && History(me, w, events)[i] == Noted(id)
    requires id in Filed(w.local.messages, History(me, w, events)[..i])
    ensures var log, messages := History(me, w, events), Run(me, w, events).local.messages;
            || (id in messages && messages[id].status in {Status.Delivered, Status.Read})
            || DeletedSince(log, i + 1, Filed(w.local.messages, log[..i])[id].conversation)
  {
    AgreesWithItself(w.local.messages);
    StoreIsHistory(me, w, events, w.local.messages);
    NotedSince(w.local.messages, History(me, w, events), i, id, Run(me, w, events).local.messages);
  }

  /** Every row committed over a run has left its message in the store, unless that was deleted afterwards. */
  lemma CommittedIsStored(me: Me, w: World, events: seq<Event>, k: nat)
    requires w.committed == [] && k < |Run(me, w, events).committed|
    ensures var s, log := Run(me, w, events), History(me, w, events);
            exists i: nat :: i < |log| && log[i].Took? && log[i].row == s.committed[k]
                             && StoredOrDeleted(w.local.messages, log, i, s.local.messages)
  {
    CommittedIsHistory(me, w, events);
    var s, log := Run(me, w, events), History(me, w, events);
    assert [] + TakenRows(log) == TakenRows(log);
    RowIsTaken(log, k);
    var i: nat :| i < |log| && log[i].Took? && log[i].row == s.committed[k];
    if Brings(log[i]).Some? {
      ReceivedIsStored(me, w, events, i);
    }
    assert StoredOrDeleted(w.local.messages, log, i, s.local.messages);
  }
}
