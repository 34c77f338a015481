/** What handling a batch does with each row, verdict and delivery update. */
module BatchAnswers {
  import opened Ids
  import opened RelayTables
  import opened LocalTables
  import Commits = LocalCommits
  import opened ClientSync

  // ----- verdicts -----

  /** Row k was committed with the effect that its own verdict asks for. */
  ghost predicate AsDecided(h: Handled, k: nat, rows: seq<Row>, verdicts: seq<Verdict>)
    requires |verdicts| == |rows| && k < |h.done| && |h.effects| == |h.done|
  {
    exists j: nat :: j < |rows| && rows[j] == h.done[k] && verdicts[j].Accept? && verdicts[j].effect == h.effects[k]
  }

  /** The acks sent are those of the committed rows in order, but for the last one if handling stopped there. */
  ghost predicate AcksFollow(h: Handled) {
    && |h.acks| <= |h.done| && |h.done| <= |h.acks| + 1 && (h.ok ==> |h.acks| == |h.done|)
    && forall k :: 0 <= k < |h.acks| ==> h.acks[k] == h.done[k].wire.envelopeId
  }

  ghost predicate Decided(h: Handled, rows: seq<Row>, verdicts: seq<Verdict>)
    requires |verdicts| == |rows|
  {
    && |h.effects| == |h.done| && AcksFollow(h)
    && forall k: nat :: k < |h.done| ==> AsDecided(h, k, rows, verdicts)
  }

  lemma DecidedLater(h: Handled, k: nat, rows: seq<Row>, verdicts: seq<Verdict>)
    requires rows != [] && |verdicts| == |rows| && k < |h.done| && |h.effects| == |h.done|
    requires AsDecided(h, k, rows[1..], verdicts[1..])
    ensures AsDecided(h, k, rows, verdicts)
  {
    var j: nat :| j < |rows[1..]| && rows[1..][j] == h.done[k] && verdicts[1..][j].Accept?
                  && verdicts[1..][j].effect == h.effects[k];
    assert rows[j + 1] == h.done[k];
  }

  lemma PrependDecided(one: Handled, rest: Handled, rows: seq<Row>, verdicts: seq<Verdict>)
    requires rows != [] && |verdicts| == |rows| && verdicts[0].Accept?
    requires one.done == [rows[0]] && one.effects == [verdicts[0].effect] && one.acks == [rows[0].wire.envelopeId]
    requires Decided(rest, rows[1..], verdicts[1..])
    ensures Decided(Prepend(one, rest), rows, verdicts)
  {
    var h := Prepend(one, rest);
    forall k: nat | k < |h.done| ensures AsDecided(h, k, rows, verdicts) {
      if k == 0 {
        assert rows[0] == h.done[0];
      } else {
        assert AsDecided(rest, k - 1, rows[1..], verdicts[1..]);
        var j: nat :| j < |rows[1..]| && rows[1..][j] == rest.done[k - 1] && verdicts[1..][j].Accept?
                      && verdicts[1..][j].effect == rest.effects[k - 1];
        assert rows[j + 1] == h.done[k];
      }
    }
  }

  /** Whatever the batch: rows are committed as their verdicts say and acked in order. */
  lemma {:induction false} RowsAreDecided(t: Local, rows: seq<Row>, verdicts: seq<Verdict>)
    requires |verdicts| == |rows|
    ensures Decided(HandleRows(t, rows, verdicts), rows, verdicts)
    decreases |rows|
  {
    if rows == [] {
    } else if rows[0].cursor <= t.cursor {
      RowsAreDecided(t, rows[1..], verdicts[1..]);
      var h := HandleRows(t, rows[1..], verdicts[1..]);
      forall k: nat | k < |h.done| ensures AsDecided(h, k, rows, verdicts) {
        DecidedLater(h, k, rows, verdicts);
      }
    } else {
      FirstIsDecided(t, rows, verdicts);
      var one := HandleRow(t, rows[0], verdicts[0]);
      if one.ok {
        RowsAreDecided(one.local, rows[1..], verdicts[1..]);
        PrependDecided(one, HandleRows(one.local, rows[1..], verdicts[1..]), rows, verdicts);
      }
    }
  }

  lemma FirstIsDecided(t: Local, rows: seq<Row>, verdicts: seq<Verdict>)
    requires rows != [] && |verdicts| == |rows|
    ensures var one := HandleRow(t, rows[0], verdicts[0]);
            && Decided(one, rows, verdicts)
            && (one.ok ==> verdicts[0].Accept? && one.done == [rows[0]] && one.effects == [verdicts[0].effect]
                           && one.acks == [rows[0].wire.envelopeId])
  {
    var one := HandleRow(t, rows[0], verdicts[0]);
    if one.done != [] {
      assert rows[0] == one.done[0] && verdicts[0].effect == one.effects[0];
      assert AsDecided(one, 0, rows, verdicts);
    }
  }

  // ----- progress -----

  /** Nothing stands in the way of this row: accepted, acknowledged, and no deletion that may be aborted. */
  predicate Willing(v: Verdict) {
    v.Accept? && v.acked && !v.effect.Deletion?
  }

  function Above(rows: seq<Row>, cursor: nat): seq<Row> {
    if rows == [] then [] else (if rows[0].cursor > cursor then [rows[0]] else []) + Above(rows[1..], cursor)
  }

  lemma {:induction false} AllAbove(rows: seq<Row>, cursor: nat)
    requires forall r :: r in rows ==> r.cursor > cursor
    ensures Above(rows, cursor) == rows
    decreases |rows|
  {
    if rows == [] {
    } else {
      assert rows[0] in rows;
      AllAbove(rows[1..], cursor);
    }
  }

  lemma AboveHead(rows: seq<Row>, cursor: nat)
    requires rows != [] && rows[0].cursor > cursor
    requires forall i, j :: 0 <= i < j < |rows| ==> rows[i].cursor < rows[j].cursor
    ensures Above(rows, cursor) == [rows[0]] + Above(rows[1..], rows[0].cursor)
  {
    forall r | r in rows[1..] ensures r.cursor > rows[0].cursor {
      var i :| 0 <= i < |rows[1..]| && rows[1..][i] == r;
      assert rows[i + 1] == r;
    }
    AllAbove(rows[1..], rows[0].cursor);
    AllAbove(rows[1..], cursor);
  }

  lemma WillingRow(t: Local, row: Row, v: Verdict)
    requires Willing(v)
    ensures var h := HandleRow(t, row, v); h.ok && h.done == [row] && h.local.cursor == row.cursor
  {
    HandleRowEffect(t, row, v);
  }

  /** A batch in cursor order whose rows are all accepted is committed whole, but for what was committed before. */
  lemma {:induction false} WillingRowsAreCommitted(t: Local, rows: seq<Row>, verdicts: seq<Verdict>)
    requires |verdicts| == |rows| && forall v :: v in verdicts ==> Willing(v)
    requires forall i, j :: 0 <= i < j < |rows| ==> rows[i].cursor < rows[j].cursor
    ensures var h := HandleRows(t, rows, verdicts); h.ok && h.done == Above(rows, t.cursor)
    decreases |rows|
  {
    if rows == [] {
    } else if rows[0].cursor <= t.cursor {
      WillingRowsAreCommitted(t, rows[1..], verdicts[1..]);
    } else {
      assert Willing(verdicts[0]);
      var one := HandleRow(t, rows[0], verdicts[0]);
      WillingRow(t, rows[0], verdicts[0]);
      WillingRowsAreCommitted(one.local, rows[1..], verdicts[1..]);
      AboveHead(rows, t.cursor);
    }
  }

  // ----- receipts and delivery updates -----

  /** Receipts mark as read exactly the named messages that this account sent to the peer. */
  lemma {:induction false} ReadsExactly(t: Local, readIds: seq<LogicalId>, peer: AccountId, id: LogicalId)
    requires id in t.messages
    ensures var s := ReadAll(t, readIds, peer);
            && id in s.messages
            && s.messages[id] == if id in readIds && t.messages[id].peer == peer && !t.messages[id].inbound
                                 then t.messages[id].(status := Read) else t.messages[id]
    decreases |readIds|
  {
    if readIds == [] {
    } else {
      var next := UpdateOutboundStatus(t, readIds[0], peer, Read);
      Commits.ReceiptIsForSender(t, readIds[0], peer, Read);
      Commits.StatusRises(t, readIds[0], Read);
      ReadsExactly(next, readIds[1..], peer, id);
    }
  }

  /** Delivery updates raise exactly the named messages to delivered. */
  lemma {:induction false} UpdatesExactly(t: Local, statuses: seq<Update>, id: LogicalId)
    requires id in t.messages
    ensures var s := ApplyStatuses(t, statuses);
            && id in s.messages
            && s.messages[id] == if exists u :: u in statuses && u.logicalId == id
                                 then t.messages[id].(status := Commits.Higher(t.messages[id].status, Status.Delivered))
                                 else t.messages[id]
    decreases |statuses|
  {
    if statuses == [] {
    } else {
      var next := UpdateStatus(t, statuses[0].logicalId, Status.Delivered);
      Commits.StatusRises(t, statuses[0].logicalId, Status.Delivered);
      UpdatesExactly(next, statuses[1..], id);
      assert statuses == [statuses[0]] + statuses[1..];
    }
  }

  /** The status cursor moves on only when the whole batch was handled, and never behind what the batch reached. */
  lemma StatusCursorExactly(t: Local, batch: Batch, verdicts: seq<Verdict>)
    requires |verdicts| == |batch.rows|
    ensures var h := HandleBatch(t, batch, verdicts);
            var last := if batch.statuses == [] then t.statusCursor else batch.statuses[|batch.statuses| - 1].cursor;
            && (!h.ok ==> h.local.statusCursor == t.statusCursor)
            && (h.ok ==> h.local.statusCursor == if last > batch.nextStatus then last else batch.nextStatus)
  {
    ApplyStatusesFrame(t, batch.statuses);
    RowsKeepStatusCursor(ApplyStatuses(t, batch.statuses), batch.rows, verdicts);
  }
}
