/** How the client handles one sync batch: skip, commit, acknowledge, and where it may stop. */
module ClientSync {
  import opened Ids
  import opened RelayTables
  import opened LocalTables

  // What decryption and validation decide about one envelope. `readIds` are the messages a receipt
  // marks as read before the commit. A verdict that is not `acked` stands for a crash or a send
  // error between the commit and its acknowledgement.
  datatype Verdict =
    | Accept(readIds: seq<LogicalId>, peer: AccountId, effect: Effect, acked: bool)
    | Stop(readIds: seq<LogicalId>, peer: AccountId)

  // What handling a batch did: the new store, the rows committed and with which effects, the acks
  // sent, and whether it finished.
  datatype Handled = Handled(local: Local, done: seq<Row>, effects: seq<Effect>, acks: seq<EnvelopeId>, ok: bool)

  function ReadAll(t: Local, readIds: seq<LogicalId>, peer: AccountId): Local
    decreases |readIds|
  {
    if readIds == [] then t else ReadAll(UpdateOutboundStatus(t, readIds[0], peer, Read), readIds[1..], peer)
  }

  function ApplyStatuses(t: Local, statuses: seq<Update>): Local
    decreases |statuses|
  {
    if statuses == [] then t else ApplyStatuses(UpdateStatus(t, statuses[0].logicalId, Delivered), statuses[1..])
  }

  function Prepend(first: Handled, rest: Handled): Handled {
    rest.(done := first.done + rest.done, effects := first.effects + rest.effects, acks := first.acks + rest.acks)
  }

  function HandleRow(t: Local, row: Row, verdict: Verdict): Handled {
    var read := ReadAll(t, verdict.readIds, verdict.peer);
    match verdict
    case Stop(_, _) => Handled(read, [], [], [], false)
    case Accept(_, _, effect, acked) =>
      match Commit(read, effect, row.cursor)
      case None => Handled(read, [], [], [], false)
      case Some(next) => Handled(next, [row], [effect], if acked then [row.wire.envelopeId] else [], acked)
  }

  function HandleRows(t: Local, rows: seq<Row>, verdicts: seq<Verdict>): Handled
    requires |verdicts| == |rows|
    decreases |rows|
  {
    if rows == [] then Handled(t, [], [], [], true)
    else if rows[0].cursor <= t.cursor then HandleRows(t, rows[1..], verdicts[1..])
    else
      var one := HandleRow(t, rows[0], verdicts[0]);
      if one.ok then Prepend(one, HandleRows(one.local, rows[1..], verdicts[1..])) else one
  }

  function StatusAfter(t: Local, batch: Batch): nat {
    var last := if batch.statuses == [] then t.statusCursor else batch.statuses[|batch.statuses| - 1].cursor;
    if last < batch.nextStatus then batch.nextStatus else last
  }

  function HandleBatch(t: Local, batch: Batch, verdicts: seq<Verdict>): Handled
    requires |verdicts| == |batch.rows|
  {
    var h := HandleRows(ApplyStatuses(t, batch.statuses), batch.rows, verdicts);
    if h.ok then h.(local := h.local.(statusCursor := StatusAfter(t, batch))) else h
  }

  // ----- frames -----

  /** Nothing but messages and summaries differs. */
  ghost predicate OnlyMessages(t: Local, s: Local) {
    s == t.(messages := s.messages, summaries := s.summaries) && s.messages.Keys == t.messages.Keys
    && forall id :: id in t.messages ==> s.messages[id].conversation == t.messages[id].conversation
  }

  lemma {:induction false} ReadAllFrame(t: Local, readIds: seq<LogicalId>, peer: AccountId)
    ensures OnlyMessages(t, ReadAll(t, readIds, peer))
    decreases |readIds|
  {
    if readIds == [] {
    } else {
      ReadAllFrame(UpdateOutboundStatus(t, readIds[0], peer, Read), readIds[1..], peer);
    }
  }

  lemma {:induction false} ApplyStatusesFrame(t: Local, statuses: seq<Update>)
    ensures OnlyMessages(t, ApplyStatuses(t, statuses))
    decreases |statuses|
  {
    if statuses == [] {
    } else {
      ApplyStatusesFrame(UpdateStatus(t, statuses[0].logicalId, Delivered), statuses[1..]);
    }
  }

  lemma CommitSetsCursor(t: Local, e: Effect, cursor: nat)
    requires Commit(t, e, cursor).Some?
    ensures Commit(t, e, cursor).value.cursor == cursor
    ensures Commit(t, e, cursor).value.statusCursor == t.statusCursor
  {
  }

  lemma HandleRowEffect(t: Local, row: Row, verdict: Verdict)
    ensures var h := HandleRow(t, row, verdict);
            && (h.done == [] || h.done == [row])
            && h.local.cursor == (if h.done == [] then t.cursor else row.cursor)
            && (h.ok ==> h.done == [row] && h.acks == [row.wire.envelopeId])
            && (h.acks == [] || (h.acks == [row.wire.envelopeId] && h.done == [row]))
  {
    ReadAllFrame(t, verdict.readIds, verdict.peer);
  }

  lemma HandleRowKeepsStatusCursor(t: Local, row: Row, v: Verdict)
    ensures HandleRow(t, row, v).local.statusCursor == t.statusCursor
  {
    var mid := ReadAll(t, v.readIds, v.peer);
    ReadAllFrame(t, v.readIds, v.peer);
    if v.Accept? && Commit(mid, v.effect, row.cursor).Some? {
      CommitSetsCursor(mid, v.effect, row.cursor);
    }
  }

  lemma {:induction false} RowsKeepStatusCursor(t: Local, rows: seq<Row>, verdicts: seq<Verdict>)
    requires |verdicts| == |rows|
    ensures HandleRows(t, rows, verdicts).local.statusCursor == t.statusCursor
    decreases |rows|
  {
    if rows == [] {
    } else {
      RowsKeepStatusCursor(t, rows[1..], verdicts[1..]);
      var one := HandleRow(t, rows[0], verdicts[0]);
      HandleRowKeepsStatusCursor(t, rows[0], verdicts[0]);
      RowsKeepStatusCursor(one.local, rows[1..], verdicts[1..]);
    }
  }

  // ----- what a batch commits -----

  ghost predicate Ascending(rows: seq<Row>, above: nat) {
    (forall i :: 0 <= i < |rows| ==> rows[i].cursor > above)
    && (forall i, j :: 0 <= i < j < |rows| ==> rows[i].cursor < rows[j].cursor)
  }

  lemma AscendingCons(row: Row, rest: seq<Row>, above: nat)
    requires row.cursor > above && Ascending(rest, row.cursor)
    ensures Ascending([row] + rest, above)
    ensures LastCursor([row] + rest, above) == LastCursor(rest, row.cursor)
  {
  }

  /**
   Whatever the batch and wherever handling stops: rows are committed in ascending cursor order
   above the old cursor, the cursor ends at the last of them, and only committed rows are acked.
   */
  lemma {:induction false} CommitsAscend(t: Local, rows: seq<Row>, verdicts: seq<Verdict>)
    requires |verdicts| == |rows|
    ensures var h := HandleRows(t, rows, verdicts);
            && Ascending(h.done, t.cursor)
            && h.local.cursor == LastCursor(h.done, t.cursor)
            && (forall r :: r in h.done ==> r in rows)
            && (forall id :: id in h.acks ==> exists r :: r in h.done && r.wire.envelopeId == id)
    decreases |rows|
  {
    if rows == [] {
    } else {
      if rows[0].cursor <= t.cursor {
        CommitsAscend(t, rows[1..], verdicts[1..]);
      } else {
        var one := HandleRow(t, rows[0], verdicts[0]);
        HandleRowEffect(t, rows[0], verdicts[0]);
        if one.ok {
          CommitsAscend(one.local, rows[1..], verdicts[1..]);
          var rest := HandleRows(one.local, rows[1..], verdicts[1..]);
          AscendingCons(rows[0], rest.done, t.cursor);
          forall id | id in [rows[0].wire.envelopeId] + rest.acks
            ensures exists r :: r in [rows[0]] + rest.done && r.wire.envelopeId == id
          {
            if id in rest.acks {
              var r :| r in rest.done && r.wire.envelopeId == id;
              assert r in [rows[0]] + rest.done;
            } else {
              assert rows[0] in [rows[0]] + rest.done;
            }
          }
        }
      }
    }
  }

  /** Handling an ascending batch passes over no row of it: what the cursor moved past is committed. */
  lemma {:induction false} NothingSkipped(t: Local, rows: seq<Row>, verdicts: seq<Verdict>)
    requires |verdicts| == |rows|
    requires forall i, j :: 0 <= i < j < |rows| ==> rows[i].cursor < rows[j].cursor
    ensures var h := HandleRows(t, rows, verdicts);
            forall r :: r in rows && t.cursor < r.cursor <= h.local.cursor ==> r in h.done
    decreases |rows|
  {
    if rows == [] {
    } else {
      CommitsAscend(t, rows, verdicts);
      var h := HandleRows(t, rows, verdicts);
      if rows[0].cursor <= t.cursor {
        NothingSkipped(t, rows[1..], verdicts[1..]);
        forall r | r in rows && t.cursor < r.cursor <= h.local.cursor ensures r in h.done {
          assert r in rows[1..];
        }
      } else {
        var one := HandleRow(t, rows[0], verdicts[0]);
        HandleRowEffect(t, rows[0], verdicts[0]);
        if one.ok {
          NothingSkipped(one.local, rows[1..], verdicts[1..]);
          forall r | r in rows && t.cursor < r.cursor <= h.local.cursor ensures r in h.done {
            if r != rows[0] {
              assert r in rows[1..];
              var i :| 0 <= i < |rows| && rows[i] == r;
              assert rows[0].cursor < rows[i].cursor;
            }
          }
        } else {
          forall r | r in rows && t.cursor < r.cursor <= h.local.cursor ensures r in h.done {
            var i :| 0 <= i < |rows| && rows[i] == r;
          }
        }
      }
    }
  }

  /** A batch that lies at or below the cursor changes no table but message status. */
  lemma {:induction false} StaleBatchIsIgnored(t: Local, rows: seq<Row>, verdicts: seq<Verdict>)
    requires |verdicts| == |rows| && forall r :: r in rows ==> r.cursor <= t.cursor
    ensures HandleRows(t, rows, verdicts) == Handled(t, [], [], [], true)
    decreases |rows|
  {
    if rows == [] {
    } else {
      StaleBatchIsIgnored(t, rows[1..], verdicts[1..]);
    }
  }

  /** All of the above for a whole batch, delivery updates included. */
  lemma BatchFacts(t: Local, batch: Batch, verdicts: seq<Verdict>)
    requires |verdicts| == |batch.rows|
    ensures var h := HandleBatch(t, batch, verdicts);
            && Ascending(h.done, t.cursor)
            && h.local.cursor == LastCursor(h.done, t.cursor)
            && t.cursor <= h.local.cursor
            && (forall r :: r in h.done ==> r in batch.rows)
            && (forall id :: id in h.acks ==> exists r :: r in h.done && r.wire.envelopeId == id)
  {
    ApplyStatusesFrame(t, batch.statuses);
    CommitsAscend(ApplyStatuses(t, batch.statuses), batch.rows, verdicts);
  }

  lemma BatchSkipsNothing(t: Local, batch: Batch, verdicts: seq<Verdict>, r: Row)
    requires |verdicts| == |batch.rows|
    requires forall i, j :: 0 <= i < j < |batch.rows| ==> batch.rows[i].cursor < batch.rows[j].cursor
    requires r in batch.rows && t.cursor < r.cursor <= HandleBatch(t, batch, verdicts).local.cursor
    ensures r in HandleBatch(t, batch, verdicts).done
  {
    ApplyStatusesFrame(t, batch.statuses);
    NothingSkipped(ApplyStatuses(t, batch.statuses), batch.rows, verdicts);
  }
}
