/**
 The client's local database: its tables as values, and each transaction as a function. Class
 `ClientStore.LocalStore` runs them statement by statement. Triggers are part of the statements that
 fire them; a transaction that a constraint aborts is `None`. Message bodies, keys and encryption at
 rest are left out, and so are the parts of notices and contacts that nothing else depends on.
 */
module LocalTables {
  import opened Ids

  datatype Status = Sending | Sent | Delivered | Read

  function Rank(s: Status): nat {
    match s
    case Sending => 0
    case Sent => 1
    case Delivered => 2
    case Read => 3
  }

  datatype Message = Message(
    conversation: Conversation, peer: AccountId, sender: AccountId, sentAt: int, status: Status, inbound: bool)

  datatype Summary = Summary(peer: AccountId, lastActivity: int, unread: int)

  datatype NoticeKind = Pairing | ChatRequest | ChatResponse

  datatype Notice = Notice(kind: NoticeKind, actor: AccountId)

  datatype Contact = Contact(verified: bool, identityChanged: bool)

  datatype Tombstone = Tombstone(
    username: nat, conversation: Conversation, syncId: LogicalId, deletedAt: int, pending: bool)

  datatype Local = Local(
    messages: map<LogicalId, Message>,
    summaries: map<Conversation, Summary>,
    outbox: map<LogicalId, seq<Wire>>,
    drafts: map<Conversation, string>,
    notices: map<nat, Notice>,
    contacts: map<AccountId, Contact>,
    tombstones: map<AccountId, Tombstone>,
    cursor: nat,
    statusCursor: nat)

  const BLANK := Local(map[], map[], map[], map[], map[], map[], map[], 0, 0)

  // ----- messages and the summary triggers -----

  function Max(a: int, b: int): int {
    if a < b then b else a
  }

  predicate Unread(m: Message) {
    m.inbound && m.status != Read
  }

  function UnreadWeight(m: Message): int {
    if Unread(m) then 1 else 0
  }

  /**
   Trigger messages_summary_insert. Messages are inserted with OR IGNORE, which also governs the
   trigger: a summary whose peer is taken by another conversation (UNIQUE) is silently not written.
   */
  function SummarizeInsert(s: map<Conversation, Summary>, m: Message): map<Conversation, Summary> {
    if exists c :: c in s && c != m.conversation && s[c].peer == m.peer then s
    else if m.conversation in s then
      var known := s[m.conversation];
      s[m.conversation := Summary(m.peer, Max(known.lastActivity, m.sentAt), known.unread + UnreadWeight(m))]
    else s[m.conversation := Summary(m.peer, m.sentAt, UnreadWeight(m))]
  }

  /** Trigger messages_summary_read. */
  function SummarizeRead(s: map<Conversation, Summary>, before: Message, after: Message): map<Conversation, Summary> {
    if Unread(before) && after.status == Read && after.conversation in s then
      s[after.conversation := s[after.conversation].(unread := Max(0, s[after.conversation].unread - 1))]
    else s
  }

  function InsertMessage(t: Local, id: LogicalId, m: Message): Local {
    if id in t.messages then t
    else t.(messages := t.messages[id := m], summaries := SummarizeInsert(t.summaries, m))
  }

  function SetStatus(t: Local, id: LogicalId, status: Status): Local
    requires id in t.messages
  {
    var after := t.messages[id].(status := status);
    t.(messages := t.messages[id := after], summaries := SummarizeRead(t.summaries, t.messages[id], after))
  }

  function UpdateStatus(t: Local, id: LogicalId, status: Status): Local {
    if id in t.messages && Rank(t.messages[id].status) < Rank(status) then SetStatus(t, id, status) else t
  }

  function UpdateOutboundStatus(t: Local, id: LogicalId, peer: AccountId, status: Status): Local {
    if id in t.messages && t.messages[id].peer == peer && !t.messages[id].inbound then UpdateStatus(t, id, status) else t
  }

  // ----- commits -----

  function CommitOutgoing(t: Local, id: LogicalId, m: Message, frame: seq<Wire>): Local {
    var t1 := InsertMessage(t, id, m);
    t1.(outbox := t1.outbox[id := frame])
  }

  function CommitControlOutgoing(t: Local, id: LogicalId, frame: seq<Wire>): Local {
    t.(outbox := t.outbox[id := frame])
  }

  // What one envelope of a batch commits, besides the cursor.
  datatype Effect =
    | Inbound(id: LogicalId, message: Message)
    | Unverified(id: LogicalId, message: Message, requestId: nat, notice: Notice)
    | Deletion(peer: AccountId, username: nat, conversation: Conversation, syncId: LogicalId, deletedAt: int)
    | Control

  /** One of the four inbound commit transactions; None when a constraint aborts it. */
  function Commit(t: Local, e: Effect, cursor: nat): Option<Local> {
    match e
    case Inbound(id, m) => Some(InsertMessage(t, id, m).(cursor := cursor))
    case Unverified(id, m, requestId, notice) =>
      var t1 := InsertMessage(t, id, m);
      Some(t1.(notices := t1.notices[requestId := notice], cursor := cursor))
    case Deletion(peer, username, conversation, syncId, deletedAt) =>
      (match UpsertTombstone(DeleteConversationState(t, peer, conversation), peer,
                             Tombstone(username, conversation, syncId, deletedAt, false))
       case None => None
       case Some(t1) => Some(t1.(cursor := cursor)))
    case Control => Some(t.(cursor := cursor))
  }

  // ----- deletion and tombstones -----

  function IdsOf(messages: map<LogicalId, Message>, conversation: Conversation): set<LogicalId> {
    set id | id in messages && messages[id].conversation == conversation
  }

  function DeleteConversationState(t: Local, peer: AccountId, conversation: Conversation): Local {
    var ids := IdsOf(t.messages, conversation);
    t.(outbox := t.outbox - ids,
       messages := t.messages - ids,
       drafts := t.drafts - {conversation},
       summaries := t.summaries - {conversation},
       notices := map r | r in t.notices
         && !(t.notices[r].actor == peer && t.notices[r].kind in {ChatRequest, ChatResponse}) :: t.notices[r],
       contacts := t.contacts - {peer})
  }

  function MergeTombstone(before: Tombstone, wanted: Tombstone): Tombstone {
    var newer := wanted.deletedAt >= before.deletedAt;
    Tombstone(
      if newer then wanted.username else before.username,
      if newer then wanted.conversation else before.conversation,
      if before.pending then before.syncId
      else if wanted.pending then wanted.syncId
      else if newer then wanted.syncId else before.syncId,
      Max(wanted.deletedAt, before.deletedAt),
      wanted.pending || before.pending)
  }

  type Tombstones = map<AccountId, Tombstone>

  /** INSERT ... ON CONFLICT(peer); None when UNIQUE(sync_event_id) is violated. */
  function Upsert(tombstones: Tombstones, peer: AccountId, wanted: Tombstone): Option<Tombstones> {
    var merged := if peer in tombstones then MergeTombstone(tombstones[peer], wanted) else wanted;
    if exists p :: p in tombstones && p != peer && tombstones[p].syncId == merged.syncId then None
    else Some(tombstones[peer := merged])
  }

  function UpsertTombstone(t: Local, peer: AccountId, wanted: Tombstone): Option<Local> {
    match Upsert(t.tombstones, peer, wanted)
    case None => None
    case Some(tombstones) => Some(t.(tombstones := tombstones))
  }

  function DeleteEverywhere(
    t: Local, peer: AccountId, username: nat, conversation: Conversation, syncId: LogicalId, deletedAt: int): Option<Local>
  {
    UpsertTombstone(DeleteConversationState(t, peer, conversation), peer,
                    Tombstone(username, conversation, syncId, deletedAt, true))
  }

  function Settle(tombstones: Tombstones, syncId: LogicalId): Tombstones {
    map p | p in tombstones ::
      if tombstones[p].syncId == syncId then tombstones[p].(pending := false) else tombstones[p]
  }

  function MarkSynced(t: Local, syncId: LogicalId): Local {
    t.(tombstones := Settle(t.tombstones, syncId))
  }

  function VerifyContact(t: Local, account: AccountId): Local {
    t.(contacts := if account in t.contacts then t.contacts[account := Contact(true, false)] else t.contacts,
       outbox := if account in t.tombstones then t.outbox - {t.tombstones[account].syncId} else t.outbox,
       tombstones := t.tombstones - {account})
  }

  /** complete_outbox: three statements on the same logical id. */
  function CompleteOutbox(t: Local, id: LogicalId): Local {
    UpdateStatus(MarkSynced(t.(outbox := t.outbox - {id}), id), id, Sent)
  }
}
