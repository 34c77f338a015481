/** A store's messages against the history of what was received, written and deleted. */
module MessageHistory {
  import opened Ids
  import opened RelayTables
  import opened LocalTables
  import Commits = LocalCommits
  import opened ClientSync

  // What happened to the messages of a store: a delivery update was handled, a row was committed with
  // an effect, a message was written here, a conversation was deleted here.
  datatype Entry =
    | Noted(id: LogicalId)
    | Took(row: Row, effect: Effect)
    | Wrote(id: LogicalId, message: Message)
    | Dropped(conversation: Conversation)

  type Messages = map<LogicalId, Message>

  // ----- what a history leaves -----

  function Add(f: Messages, id: LogicalId, m: Message): Messages {
    if id in f then f else f[id := m]
  }

  function Remove(f: Messages, c: Conversation): Messages {
    map id | id in f && f[id].conversation != c :: f[id]
  }

  function Raise(f: Messages, id: LogicalId): Messages {
    if id in f then f[id := f[id].(status := Commits.Higher(f[id].status, Status.Delivered))] else f
  }

  function FileOne(f: Messages, e: Entry): Messages {
    match e
    case Noted(id) => Raise(f, id)
    case Wrote(id, m) => Add(f, id, m)
    case Dropped(c) => Remove(f, c)
    case Took(_, Inbound(id, m)) => Add(f, id, m)
    case Took(_, Unverified(id, m, _, _)) => Add(f, id, m)
    case Took(_, Deletion(_, _, c, _, _)) => Remove(f, c)
    case Took(_, Control) => f
  }

  /** The messages that a history leaves. */
  function Filed(f: Messages, log: seq<Entry>): Messages
    decreases |log|
  {
    if log == [] then f else Filed(FileOne(f, log[0]), log[1..])
  }

  /** The conversation an entry deletes, if any. */
  function Deletes(e: Entry): Option<Conversation> {
    match e
    case Dropped(c) => Some(c)
    case Took(_, Deletion(_, _, c, _, _)) => Some(c)
    case _ => None
  }

  /** The message an entry brings, if any. */
  function Brings(e: Entry): Option<(LogicalId, Message)> {
    match e
    case Wrote(id, m) => Some((id, m))
    case Took(_, Inbound(id, m)) => Some((id, m))
    case Took(_, Unverified(id, m, _, _)) => Some((id, m))
    case _ => None
  }

  ghost predicate DeletedSince(log: seq<Entry>, from: nat, c: Conversation) {
    exists j: nat :: from <= j < |log| && Deletes(log[j]) == Some(c)
  }

  lemma {:induction false} FiledConcat(f: Messages, a: seq<Entry>, b: seq<Entry>)
    ensures Filed(f, a + b) == Filed(Filed(f, a), b)
    decreases |a|
  {
    if a == [] {
      assert a + b == b;
    } else {
      assert (a + b)[1..] == a[1..] + b;
      FiledConcat(FileOne(f, a[0]), a[1..], b);
    }
  }

  /** What is filed stays filed, as it was but for a higher status, until its conversation is deleted. */
  lemma {:induction false} StaysFiled(f: Messages, log: seq<Entry>, id: LogicalId)
    requires id in f
    ensures || DeletedSince(log, 0, f[id].conversation)
            || (id in Filed(f, log) && Later(f[id], Filed(f, log)[id]))
    decreases |log|
  {
    if log == [] {
    } else {
      var g := FileOne(f, log[0]);
      if Deletes(log[0]) != Some(f[id].conversation) {
        assert id in g && Later(f[id], g[id]);
        StaysFiled(g, log[1..], id);
        if DeletedSince(log[1..], 0, f[id].conversation) {
          var j: nat :| j < |log[1..]| && Deletes(log[1..][j]) == Some(f[id].conversation);
          assert Deletes(log[j + 1]) == Some(f[id].conversation);
        }
      }
    }
  }

  /** The same message, with no lower status. */
  predicate Later(m: Message, n: Message) {
    n == m.(status := n.status) && Rank(m.status) <= Rank(n.status)
  }

  // ----- the history of a batch -----

  function NotedAll(statuses: seq<Update>): (log: seq<Entry>)
    ensures |log| == |statuses| && forall i :: 0 <= i < |log| ==> log[i] == Noted(statuses[i].logicalId)
  {
    if statuses == [] then [] else [Noted(statuses[0].logicalId)] + NotedAll(statuses[1..])
  }

  function TookAll(rows: seq<Row>, effects: seq<Effect>): (log: seq<Entry>)
    requires |effects| == |rows|
    ensures |log| == |rows| && forall i :: 0 <= i < |log| ==> log[i] == Took(rows[i], effects[i])
  {
    if rows == [] then [] else [Took(rows[0], effects[0])] + TookAll(rows[1..], effects[1..])
  }

  lemma {:induction false} DoneAndEffects(t: Local, rows: seq<Row>, verdicts: seq<Verdict>)
    requires |verdicts| == |rows|
    ensures |HandleRows(t, rows, verdicts).effects| == |HandleRows(t, rows, verdicts).done|
    decreases |rows|
  {
    if rows == [] {
    } else {
      DoneAndEffects(t, rows[1..], verdicts[1..]);
      var one := HandleRow(t, rows[0], verdicts[0]);
      DoneAndEffects(one.local, rows[1..], verdicts[1..]);
    }
  }

  /** The entries of a batch: its delivery updates, then the rows it committed. */
  function BatchLog(t: Local, batch: Batch, verdicts: seq<Verdict>): seq<Entry>
    requires |verdicts| == |batch.rows|
  {
    var h := HandleBatch(t, batch, verdicts);
    DoneAndEffects(ApplyStatuses(t, batch.statuses), batch.rows, verdicts);
    NotedAll(batch.statuses) + TookAll(h.done, h.effects)
  }

  // ----- the store agrees with its history -----

  /** The same messages, with no lower status. */
  ghost predicate Agrees(messages: Messages, f: Messages) {
    messages.Keys == f.Keys && forall id :: id in f ==> Later(f[id], messages[id])
  }

  lemma StatusAgrees(t: Local, f: Messages, id: LogicalId, status: Status)
    requires Agrees(t.messages, f)
    ensures Agrees(UpdateStatus(t, id, status).messages, f)
  {
    Commits.StatusRises(t, id, status);
  }

  lemma {:induction false} ReadAgrees(t: Local, f: Messages, readIds: seq<LogicalId>, peer: AccountId)
    requires Agrees(t.messages, f)
    ensures Agrees(ReadAll(t, readIds, peer).messages, f)
    decreases |readIds|
  {
    if readIds == [] {
    } else {
      StatusAgrees(t, f, readIds[0], Read);
      ReadAgrees(UpdateOutboundStatus(t, readIds[0], peer, Read), f, readIds[1..], peer);
    }
  }

  lemma NotedAgrees(t: Local, f: Messages, id: LogicalId)
    requires Agrees(t.messages, f)
    ensures Agrees(UpdateStatus(t, id, Status.Delivered).messages, Raise(f, id))
  {
    Commits.StatusRises(t, id, Status.Delivered);
  }

  lemma {:induction false} UpdatesAgree(t: Local, f: Messages, statuses: seq<Update>)
    requires Agrees(t.messages, f)
    ensures Agrees(ApplyStatuses(t, statuses).messages, Filed(f, NotedAll(statuses)))
    decreases |statuses|
  {
    if statuses == [] {
    } else {
      NotedAgrees(t, f, statuses[0].logicalId);
      UpdatesAgree(UpdateStatus(t, statuses[0].logicalId, Status.Delivered), Raise(f, statuses[0].logicalId), statuses[1..]);
      assert NotedAll(statuses)[1..] == NotedAll(statuses[1..]);
    }
  }

  lemma CommitAgrees(t: Local, f: Messages, row: Row, e: Effect)
    requires Agrees(t.messages, f) && Commit(t, e, row.cursor).Some?
    ensures Agrees(Commit(t, e, row.cursor).value.messages, FileOne(f, Took(row, e)))
  {
    match e
    case Inbound(id, m) => Commits.InboundIsFiled(t, id, m, row.cursor);
    case Unverified(id, m, requestId, notice) => Commits.RequestIsFiled(t, id, m, requestId, notice, row.cursor);
    case Deletion(peer, username, c, syncId, at) => Commits.DeletionErases(t, peer, username, c, syncId, at, row.cursor);
    case Control =>
  }

  lemma RowAgrees(t: Local, f: Messages, row: Row, v: Verdict)
    requires Agrees(t.messages, f)
    ensures var h := HandleRow(t, row, v);
            && (h.done == [] ==> Agrees(h.local.messages, f))
            && (h.done != [] ==> h.done == [row] && |h.effects| == 1
                                 && Agrees(h.local.messages, FileOne(f, Took(row, h.effects[0]))))
  {
    ReadAgrees(t, f, v.readIds, v.peer);
    var mid := ReadAll(t, v.readIds, v.peer);
    if v.Accept? && Commit(mid, v.effect, row.cursor).Some? {
      CommitAgrees(mid, f, row, v.effect);
    }
  }

  lemma {:induction false} RowsAgree(t: Local, f: Messages, rows: seq<Row>, verdicts: seq<Verdict>)
    requires Agrees(t.messages, f) && |verdicts| == |rows|
    ensures var h := HandleRows(t, rows, verdicts);
            |h.effects| == |h.done| && Agrees(h.local.messages, Filed(f, TookAll(h.done, h.effects)))
    decreases |rows|
  {
    DoneAndEffects(t, rows, verdicts);
    if rows == [] {
    } else if rows[0].cursor <= t.cursor {
      RowsAgree(t, f, rows[1..], verdicts[1..]);
    } else {
      var one := HandleRow(t, rows[0], verdicts[0]);
      RowAgrees(t, f, rows[0], verdicts[0]);
      if one.ok {
        var g := FileOne(f, Took(rows[0], one.effects[0]));
        RowsAgree(one.local, g, rows[1..], verdicts[1..]);
        var rest := HandleRows(one.local, rows[1..], verdicts[1..]);
        TookCons(rows[0], one.effects[0], rest.done, rest.effects);
      } else if one.done != [] {
        TookCons(rows[0], one.effects[0], [], []);
      }
    }
  }

  lemma TookCons(row: Row, effect: Effect, rows: seq<Row>, effects: seq<Effect>)
    requires |effects| == |rows|
    ensures TookAll([row] + rows, [effect] + effects) == [Took(row, effect)] + TookAll(rows, effects)
    ensures forall f :: Filed(f, [Took(row, effect)] + TookAll(rows, effects))
                     == Filed(FileOne(f, Took(row, effect)), TookAll(rows, effects))
    ensures rows == [] ==> [row] + rows == [row] && [effect] + effects == [effect]
  {
    assert ([Took(row, effect)] + TookAll(rows, effects))[1..] == TookAll(rows, effects);
  }

  lemma BatchAgrees(t: Local, f: Messages, batch: Batch, verdicts: seq<Verdict>)
    requires Agrees(t.messages, f) && |verdicts| == |batch.rows|
    ensures Agrees(HandleBatch(t, batch, verdicts).local.messages, Filed(f, BatchLog(t, batch, verdicts)))
  {
    UpdatesAgree(t, f, batch.statuses);
    var mid, g := ApplyStatuses(t, batch.statuses), Filed(f, NotedAll(batch.statuses));
    RowsAgree(mid, g, batch.rows, verdicts);
    var h := HandleRows(mid, batch.rows, verdicts);
    FiledConcat(f, NotedAll(batch.statuses), TookAll(h.done, h.effects));
  }

  lemma DeletionAgrees(t: Local, f: Messages, peer: AccountId, username: nat, c: Conversation, syncId: LogicalId, at: int)
    requires Agrees(t.messages, f) && DeleteEverywhere(t, peer, username, c, syncId, at).Some?
    ensures Agrees(DeleteEverywhere(t, peer, username, c, syncId, at).value.messages, Remove(f, c))
  {
    Commits.EverywhereErases(t, peer, username, c, syncId, at);
  }

  lemma OneEntry(f: Messages, e: Entry)
    ensures Filed(f, [e]) == FileOne(f, e)
  {
    assert [e][1..] == [] && Filed(FileOne(f, e), []) == FileOne(f, e);
  }

  // ----- the rows of a history -----

  /** The rows that a history commits, in order. */
  function TakenRows(log: seq<Entry>): seq<Row> {
    if log == [] then [] else (if log[0].Took? then [log[0].row] else []) + TakenRows(log[1..])
  }

  lemma {:induction false} TakenConcat(a: seq<Entry>, b: seq<Entry>)
    ensures TakenRows(a + b) == TakenRows(a) + TakenRows(b)
    decreases |a|
  {
    if a == [] {
      assert a + b == b;
    } else {
      assert (a + b)[1..] == a[1..] + b;
      TakenConcat(a[1..], b);
      var first := if a[0].Took? then [a[0].row] else [];
      assert TakenRows(a + b) == first + (TakenRows(a[1..]) + TakenRows(b));
      assert first + (TakenRows(a[1..]) + TakenRows(b)) == first + TakenRows(a[1..]) + TakenRows(b);
    }
  }

  lemma TakenJoined(before: seq<Row>, a: seq<Entry>, b: seq<Entry>)
    ensures before + TakenRows(a + b) == before + TakenRows(a) + TakenRows(b)
  {
    TakenConcat(a, b);
  }

  lemma {:induction false} TakenTook(rows: seq<Row>, effects: seq<Effect>)
    requires |effects| == |rows|
    ensures TakenRows(TookAll(rows, effects)) == rows
  {
    if rows == [] {
    } else {
      TakenTook(rows[1..], effects[1..]);
      assert TookAll(rows, effects)[1..] == TookAll(rows[1..], effects[1..]);
    }
  }

  lemma {:induction false} TakenNoted(log: seq<Entry>)
    requires forall e :: e in log ==> !e.Took?
    ensures TakenRows(log) == []
    decreases |log|
  {
    if log == [] {
    } else {
      assert log[0] in log;
      TakenNoted(log[1..]);
    }
  }

  lemma BatchLogRows(t: Local, batch: Batch, verdicts: seq<Verdict>)
    requires |verdicts| == |batch.rows|
    ensures TakenRows(BatchLog(t, batch, verdicts)) == HandleBatch(t, batch, verdicts).done
  {
    DoneAndEffects(ApplyStatuses(t, batch.statuses), batch.rows, verdicts);
    var h := HandleBatch(t, batch, verdicts);
    TakenConcat(NotedAll(batch.statuses), TookAll(h.done, h.effects));
    TakenNoted(NotedAll(batch.statuses));
    TakenTook(h.done, h.effects);
  }

  lemma {:induction false} RowIsTaken(log: seq<Entry>, k: nat)
    requires k < |TakenRows(log)|
    ensures exists i: nat :: i < |log| && log[i].Took? && log[i].row == TakenRows(log)[k]
    decreases |log|
  {
    if log[0].Took? && k == 0 {
      assert log[0].row == TakenRows(log)[0];
    } else {
      var shift := if log[0].Took? then k - 1 else k;
      RowIsTaken(log[1..], shift);
      var i: nat :| i < |log[1..]| && log[1..][i].Took? && log[1..][i].row == TakenRows(log[1..])[shift];
      assert log[i + 1].row == TakenRows(log)[k];
    }
  }

  // ----- since an entry -----

  lemma AgreesWithItself(messages: Messages)
    ensures Agrees(messages, messages)
  {
  }

  lemma SplitAtEntry(f: Messages, log: seq<Entry>, i: nat)
    requires i < |log|
    ensures Filed(f, log) == Filed(FileOne(Filed(f, log[..i]), log[i]), log[i + 1..])
  {
    assert log == log[..i] + ([log[i]] + log[i + 1..]);
    FiledConcat(f, log[..i], [log[i]] + log[i + 1..]);
    assert ([log[i]] + log[i + 1..])[1..] == log[i + 1..];
  }

  /** What is filed after an entry is there at the end, or deleted after that entry. */
  lemma FiledSince(f: Messages, log: seq<Entry>, i: nat, id: LogicalId, m: Message)
    requires i < |log|
    requires var g := FileOne(Filed(f, log[..i]), log[i]); id in g && g[id] == m
    ensures || DeletedSince(log, i + 1, m.conversation)
            || (id in Filed(f, log) && Later(m, Filed(f, log)[id]))
  {
    SplitAtEntry(f, log, i);
    StaysFiled(FileOne(Filed(f, log[..i]), log[i]), log[i + 1..], id);
    if DeletedSince(log[i + 1..], 0, m.conversation) {
      var j: nat :| j < |log[i + 1..]| && Deletes(log[i + 1..][j]) == Some(m.conversation);
      assert Deletes(log[i + 1 + j]) == Some(m.conversation);
    }
  }

  /** The message that an entry brings, or the one that was stored under its id already. */
  function KeptAs(f: Messages, id: LogicalId, m: Message): Message {
    if id in f then f[id] else m
  }

  /** The message of this entry is stored, or its conversation was deleted later. */
  ghost predicate StoredOrDeleted(f: Messages, log: seq<Entry>, i: nat, messages: Messages)
    requires i < |log|
  {
    match Brings(log[i])
    case None => true
    case Some((id, m)) =>
      var kept := KeptAs(Filed(f, log[..i]), id, m);
      (id in messages && Later(kept, messages[id])) || DeletedSince(log, i + 1, kept.conversation)
  }

  lemma BroughtSince(f: Messages, log: seq<Entry>, i: nat, messages: Messages)
    requires i < |log| && Agrees(messages, Filed(f, log))
    ensures StoredOrDeleted(f, log, i, messages)
  {
    if Brings(log[i]).Some? {
      var (id, m) := Brings(log[i]).value;
      FiledSince(f, log, i, id, KeptAs(Filed(f, log[..i]), id, m));
    }
  }

  lemma NotedSince(f: Messages, log: seq<Entry>, i: nat, id: LogicalId, messages: Messages)
    requires i < |log| && log[i] == Noted(id) && id in Filed(f, log[..i]) && Agrees(messages, Filed(f, log))
    ensures || (id in messages && messages[id].status in {Status.Delivered, Status.Read})
            || DeletedSince(log, i + 1, Filed(f, log[..i])[id].conversation)
  {
    FiledSince(f, log, i, id, Raise(Filed(f, log[..i]), id)[id]);
  }
}
