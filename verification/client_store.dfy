/**
 The client's `LocalStore`: each method runs its statements on a working copy, as a transaction
 does, and commits it by assigning `tables`; an aborted transaction leaves the tables alone.
 */
module ClientStore {
  import opened Ids
  import opened LocalTables
  import Integrity = LocalIntegrity
  import Commits = LocalCommits

  /** A message that an envelope brings is filed under the conversation with its peer. */
  predicate Filed(me: AccountId, e: Effect) {
    e.Inbound? || e.Unverified? ==> Integrity.Addressed(me, e.message)
  }

  /** The one commit that a constraint refuses: a deletion whose event stands for another peer. */
  predicate Refuses(t: Local, e: Effect) {
    e.Deletion? &&
      Integrity.Clashes(t.tombstones, e.peer, Tombstone(e.username, e.conversation, e.syncId, e.deletedAt, false))
  }

  ghost predicate Sound(me: AccountId, t: Local) {
    Integrity.SummariesExact(me, t) && Integrity.UniqueSyncIds(t.tombstones)
  }

  lemma CommitFacts(me: AccountId, t: Local, e: Effect, cursor: nat)
    ensures Sound(me, t) && Filed(me, e) && Commit(t, e, cursor).Some? ==> Sound(me, Commit(t, e, cursor).value)
    ensures Integrity.UniqueSyncIds(t.tombstones) ==> (Commit(t, e, cursor).Some? <==> !Refuses(t, e))
    ensures Commit(t, e, cursor).Some? ==> Commits.Took(t, Commit(t, e, cursor).value, e, cursor)
  {
    if Commit(t, e, cursor).Some? {
      Commits.CommitTook(t, e, cursor);
    }
    if Integrity.UniqueSyncIds(t.tombstones) && e.Deletion? {
      var wanted := Tombstone(e.username, e.conversation, e.syncId, e.deletedAt, false);
      Integrity.UpsertFailsExactly(t.tombstones, e.peer, wanted);
      if Commit(t, e, cursor).Some? {
        Integrity.UpsertKeepsUnique(t.tombstones, e.peer, wanted);
      }
    }
    if Sound(me, t) && Filed(me, e) {
      Integrity.ReceiveKeepsSummaries(me, t, e, cursor);
    }
  }

  lemma DeletionFacts(
    me: AccountId, t: Local, peer: AccountId, username: nat, conversation: Conversation, syncId: LogicalId, at: int)
    ensures var s := DeleteEverywhere(t, peer, username, conversation, syncId, at);
            && (Sound(me, t) && s.Some? ==> Sound(me, s.value))
            && (Sound(me, t) ==>
                  (s.Some? <==>
                    !Integrity.Clashes(t.tombstones, peer, Tombstone(username, conversation, syncId, at, true))))
  {
    if Sound(me, t) {
      var wanted := Tombstone(username, conversation, syncId, at, true);
      Integrity.UpsertFailsExactly(t.tombstones, peer, wanted);
      Integrity.DeleteKeepsSummaries(me, t, peer, conversation);
      if Upsert(t.tombstones, peer, wanted).Some? {
        Integrity.UpsertKeepsUnique(t.tombstones, peer, wanted);
      }
    }
  }

  class LocalStore {
    const me: AccountId
    var tables: Local

    /** Summaries are what recounting gives, and no two tombstones share a sync event. */
    ghost predicate Valid()
      reads this
    {
      Sound(me, tables)
    }

    constructor (account: AccountId)
      ensures me == account && tables == BLANK && Valid()
    {
      me, tables := account, BLANK;
      new;
      assert forall c :: IdsOf(tables.messages, c) == {};
    }

    /** INSERT OR IGNORE INTO messages, with trigger messages_summary_insert. */
    static method Insert(tx: Local, id: LogicalId, m: Message) returns (after: Local)
      ensures after == InsertMessage(tx, id, m)
    {
      after := tx;
      if id !in after.messages {
        after := after.(messages := after.messages[id := m]);
        after := after.(summaries := SummarizeInsert(after.summaries, m));
      }
    }

    method CommitOutgoing(id: LogicalId, m: Message, frame: seq<Wire>)
      modifies this
      ensures tables == LocalTables.CommitOutgoing(old(tables), id, m, frame)
      ensures old(Valid()) && Integrity.Addressed(me, m) ==> Valid()
      ensures Commits.Filed(old(tables), tables, id, m) && tables.outbox == old(tables).outbox[id := frame]
    {
      ghost var before := tables;
      var tx := Insert(tables, id, m);
      tx := tx.(outbox := tx.outbox[id := frame]);
      tables := tx;
      if Integrity.SummariesExact(me, before) && Integrity.Addressed(me, m) {
        Integrity.ApplyKeepsSummaries(me, before, Integrity.Outgoing(id, m, frame));
      }
    }

    method CommitControlOutgoing(id: LogicalId, frame: seq<Wire>)
      modifies this
      ensures tables == LocalTables.CommitControlOutgoing(old(tables), id, frame)
      ensures old(Valid()) ==> Valid()
    {
      tables := tables.(outbox := tables.outbox[id := frame]);
    }

    /** delete_conversation_state: six statements inside the caller's transaction. */
    static method DeleteState(tx: Local, peer: AccountId, conversation: Conversation) returns (after: Local)
      ensures after == DeleteConversationState(tx, peer, conversation)
    {
      after := tx.(outbox := tx.outbox - IdsOf(tx.messages, conversation));
      after := after.(messages := after.messages - IdsOf(after.messages, conversation));
      after := after.(drafts := after.drafts - {conversation});
      after := after.(summaries := after.summaries - {conversation});
      after := after.(notices := map r | r in after.notices
        && !(after.notices[r].actor == peer && after.notices[r].kind in {ChatRequest, ChatResponse}) :: after.notices[r]);
      after := after.(contacts := after.contacts - {peer});
    }

    /** One of the four inbound commits; false is a constraint error. */
    method Commit(e: Effect, cursor: nat) returns (ok: bool)
      modifies this
      ensures ok == LocalTables.Commit(old(tables), e, cursor).Some?
      ensures tables == if ok then LocalTables.Commit(old(tables), e, cursor).value else old(tables)
      ensures old(Valid()) && Filed(me, e) ==> Valid()
      ensures old(Valid()) ==> (ok <==> !Refuses(old(tables), e))
      ensures ok ==> Commits.Took(old(tables), tables, e, cursor)
    {
      ghost var start := tables;
      CommitFacts(me, start, e, cursor);
      var tx := tables;
      match e {
        case Inbound(id, m) =>
          tx := Insert(tx, id, m);
        case Unverified(id, m, requestId, notice) =>
          tx := Insert(tx, id, m);
          tx := tx.(notices := tx.notices[requestId := notice]);
        case Deletion(peer, username, conversation, syncId, deletedAt) =>
          tx := DeleteState(tx, peer, conversation);
          var next := UpsertTombstone(tx, peer, Tombstone(username, conversation, syncId, deletedAt, false));
          if next.None? {
            return false;
          }
          tx := next.value;
        case Control =>
      }
      tx := tx.(cursor := cursor);
      tables := tx;
      ok := true;
    }

    method DeleteEverywhere(peer: AccountId, username: nat, conversation: Conversation, syncId: LogicalId, deletedAt: int)
      returns (ok: bool)
      modifies this
      ensures ok == LocalTables.DeleteEverywhere(old(tables), peer, username, conversation, syncId, deletedAt).Some?
      ensures var next := LocalTables.DeleteEverywhere(old(tables), peer, username, conversation, syncId, deletedAt);
              tables == if ok then next.value else old(tables)
      ensures old(Valid()) ==> Valid()
      ensures var wanted := Tombstone(username, conversation, syncId, deletedAt, true);
              ok ==> Commits.Deleted(old(tables), tables, peer, wanted) && tables.cursor == old(tables).cursor
      ensures var wanted := Tombstone(username, conversation, syncId, deletedAt, true);
              old(Valid()) ==> (ok <==> !Integrity.Clashes(old(tables).tombstones, peer, wanted))
    {
      DeletionFacts(me, tables, peer, username, conversation, syncId, deletedAt);
      if LocalTables.DeleteEverywhere(tables, peer, username, conversation, syncId, deletedAt).Some? {
        Commits.EverywhereErases(tables, peer, username, conversation, syncId, deletedAt);
      }
      var tx := DeleteState(tables, peer, conversation);
      var next := UpsertTombstone(tx, peer, Tombstone(username, conversation, syncId, deletedAt, true));
      if next.None? {
        return false;
      }
      tables := next.value;
      ok := true;
    }

    /** UPDATE messages SET status, guarded by rank, with trigger messages_summary_read. */
    method UpdateStatus(id: LogicalId, status: Status)
      modifies this
      ensures tables == LocalTables.UpdateStatus(old(tables), id, status)
      ensures old(Valid()) ==> Valid()
      ensures Integrity.StatusGrows(old(tables), tables)
      ensures id in tables.messages ==>
                tables.messages[id].status == Commits.Higher(old(tables).messages[id].status, status)
    {
      Commits.StatusRises(tables, id, status);
      Integrity.UpdateGrowsStatus(tables, id, status);
      if Integrity.SummariesExact(me, tables) {
        Integrity.StatusKeepsSummaries(me, tables, id, status);
      }
      if id in tables.messages && Rank(tables.messages[id].status) < Rank(status) {
        var before := tables.messages[id];
        var after := before.(status := status);
        tables := tables.(messages := tables.messages[id := after]);
        tables := tables.(summaries := SummarizeRead(tables.summaries, before, after));
      }
    }

    method UpdateOutboundStatus(id: LogicalId, peer: AccountId, status: Status)
      modifies this
      ensures tables == LocalTables.UpdateOutboundStatus(old(tables), id, peer, status)
      ensures old(Valid()) ==> Valid()
    {
      if id in tables.messages && tables.messages[id].peer == peer && !tables.messages[id].inbound {
        UpdateStatus(id, status);
      }
    }

    method RemoveOutbox(id: LogicalId)
      modifies this
      ensures tables == old(tables).(outbox := old(tables).outbox - {id})
      ensures old(Valid()) ==> Valid()
    {
      tables := tables.(outbox := tables.outbox - {id});
    }

    method MarkSynced(syncId: LogicalId)
      modifies this
      ensures tables == LocalTables.MarkSynced(old(tables), syncId)
      ensures old(Valid()) ==> Valid()
    {
      tables := tables.(tombstones := Settle(tables.tombstones, syncId));
    }

    method VerifyContact(account: AccountId)
      modifies this
      ensures tables == LocalTables.VerifyContact(old(tables), account)
      ensures old(Valid()) ==> Valid()
      ensures account !in tables.tombstones
      ensures account in old(tables).tombstones ==> old(tables).tombstones[account].syncId !in tables.outbox
      ensures forall p :: p in old(tables).tombstones && p != account ==>
                p in tables.tombstones && tables.tombstones[p] == old(tables).tombstones[p]
                && (old(Valid()) && old(tables).tombstones[p].syncId in old(tables).outbox ==>
                      tables.tombstones[p].syncId in tables.outbox)
    {
      var tx := tables;
      if account in tx.contacts {
        tx := tx.(contacts := tx.contacts[account := Contact(true, false)]);
      }
      if account in tx.tombstones {
        tx := tx.(outbox := tx.outbox - {tx.tombstones[account].syncId});
      }
      tx := tx.(tombstones := tx.tombstones - {account});
      tables := tx;
    }

    method SetCursors(cursor: nat, statusCursor: nat)
      modifies this
      ensures tables == old(tables).(cursor := cursor, statusCursor := statusCursor)
      ensures old(Valid()) ==> Valid()
    {
      tables := tables.(cursor := cursor, statusCursor := statusCursor);
    }
  }
}
