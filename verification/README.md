# A verified model of the chat relay and its client

An end-to-end encrypted chat system: a relay stores encrypted envelopes per device and forwards
them; each client keeps its own database, pulls its queue, acknowledges what it has committed and
resends what the relay has not yet accepted. Both sides are transactional SQLite programs that talk
over a connection that may drop at any time. The project models both state machines, the messages
between them, device pairing, the message editor and the relay's admission control, and proves what
they keep over every run.

Verify everything with `dafny verify dfyconfig.toml`.

## How the model is built

- A database is a value (`RelayTables.Tables`, `LocalTables.Local`); a transaction is a function from
  tables to tables, with `None` or `Refused` where it aborts. A class runs each transaction statement
  by statement on a working copy (`RelayDb.Db`, `ClientStore.LocalStore`, `ClientApp.App`) and is
  proved equal to the function. AUTOINCREMENT is a counter that is never reused; a trigger is part of
  the statement that fires it.
- Runs are sequences of operations. `RelayRun` runs the relay alone, `LocalIntegrity` the client's
  store alone, `ClientRun` the client with its requests in flight, and `Delivery` one device and the
  relay together, where everything sent may be lost, late, repeated or reordered, other devices and
  maintenance act in between, and the client may stop after any transaction.
- Decryption, signatures and validation decide a `Verdict` for each envelope that is a parameter of
  handling a batch: every outcome is covered. Clocks, free disk space, random ids and connection
  failures are parameters too. Random ids are assumed new.
- What an operation answers is stated a second time off the tables themselves, in terms of fields and
  rows and without the functions that the transaction uses: `RelayAccepts`, `RelayReceipts`, `RelayRemovals`,
  `RosterAnswers`, `LocalCommits`, `BatchAnswers` and `EditorRows`.
- Identifiers are natural numbers; a conversation id is the unordered pair of its accounts, which is
  justified by `Encodings.ConversationInputIdentifiesPair` and an ideal digest.
- In pairing, a user confirms only while both screens show the same short authentication string, and
  two different channels never show the same one. Everything else is up to the relay.
- Each server handler is one atomic step.

## Results that differ from what one might expect

- A live push can lose a stored row for good (`DeliveryLoss.PushCanLose`, `DeliveryLoss.LostForever`); its
  envelope arrives later only if the relay drops it and stores it again (`DeliveryOnce.LostUnlessStoredAgain`).
  The exact condition under which a push is harmless is `DeliveryPull.PushKeepsExactly`: no stored
  envelope of the device lies strictly between its cursor and the pushed one. The pull path alone
  never loses anything.
- An envelope can be committed twice: once it was delivered and cleaned up, a retransmission is stored
  under a new cursor (`DeliveryAgain.CommittedTwice`). It happens only in this way
  (`DeliveryOnce.RecommitNeedsRemoval`), and never while the relay removes nothing (`DeliveryOnce.CommittedOnce`).
- The fan-out that announces a deleted conversation to the account's other devices is refused by the
  relay in every state: it carries the peer's conversation id but no copy for the peer
  (`ClientFanout.DeletionFanOutIsRefused`; `ClientFanout.FanOutPassesExactly` says which fan-outs pass).
- The limits of 8 active and 2 pending devices really bound active plus pending devices by 9
  (`RosterRuns.NineDevicesAreReached` gets there).
- A revision number is used for one activation only until the account is reset, and then once more
  (`RosterRuns.ActivationConflicts`, `RosterRuns.ResetFreesRevision`).
- The flag for a sync in flight becomes wrong exactly when the sync is answered by something other
  than a batch or an error (`ClientFlight.AnswerKeepsFlagExactly`).
- Soft-wrap mapping is exact except for a cursor just before a newline that ends an exactly full row
  (`EditorModel.WrapRoundTrip`).
- Evicting an idle bucket changes no decision exactly when it refills completely while idle
  (`LimiterDecisions.EvictionIsInvisibleExactly`). The defaults do; the configuration check does not ask for it.
- The warning about a changed identity key is cleared when the same bundle is fetched once more, while
  the contact stays unverified (`Contacts.ChangeWarningIsCleared`).
- Receipts and requests that are queued for a conversation are still sent after it is deleted
  (`LocalIntegrity.OutboxSurvivesExactly`, `LocalIntegrity.QueueIsClearedExactly`).
- Two deletions of a conversation with the same time merge to the later merge's name, conversation and
  event id, so the order then matters (`LocalIntegrity.RemoteMergesCommute`).

## Model

| member | source | states |
|---|---|---|
| `Ids.ConversationIdentifiesPair` | crates/protocol/src/lib.rs:24-41 | conversation ids are symmetric, and equal only for the same two accounts |
| `Sums.SumUpdate` | crates/server/src/db.rs:465-469 | how the total over all counters moves when one of them changes |
| `RelayStore.StoreAcceptsExactly` | crates/server/src/db.rs:364-515 | a batch is stored if and only if the checks in order all pass: well formed, agreeing with the logical message, an active recipient of the peer, no conflicting envelope, both quotas |
| `RelayStore.RetransmissionChangesNothing` | crates/server/src/db.rs:364-515 | sending an accepted batch again, with the same recipients active and its rows still there, succeeds with the same cursors and changes no table |
| `RelayStore.StoredBatchIsStillThere` | crates/server/src/db.rs:480-514 | right after acceptance every active envelope is stored under the reported cursor |
| `RelayStore.StoreKeepsQuota` | crates/server/src/db.rs:440-478 | an accepted batch takes neither its account nor the relay over the limits |
| `RelayStore.StoreKeepsInv` | crates/server/src/db.rs:375-438 | storing keeps keys, uniqueness, agreement between tables, exact counters and an envelope for each logical message |
| `RelayAccepts.AcceptsExactly` | crates/server/src/db.rs:364-515 | a batch is stored if and only if it is one message to one peer, agrees with what is stored, reaches a device of the peer that is approved, not revoked and of an enabled account, and fits quotas and disk: all in terms of the tables' fields |
| `RelayAccepts.AcceptedRows` | crates/server/src/db.rs:480-514 | old rows stay; a new row is one of the batch's envelopes, not stored before, for a device in use of an enabled account, under a new cursor; each such device has its envelope |
| `RelayAccepts.ReportedCursors` | crates/server/src/db.rs:480-514 | every reported cursor is that of a row of the batch with its device, and no device in use is left out |
| `RelayAccepts.AcceptedMessage` | crates/server/src/db.rs:393-419 | besides rows and counters only the logical message is added, as this sender's to the peer |
| `RelayAccepts.RefusalReason` | crates/server/src/db.rs:364-478 | every error names a condition that the batch really fails |
| `RelayStates.DisabledGetsNothing` | crates/server/src/db.rs:421-435 | over any run from a state in which an account is disabled, until it is enabled no row from it or for it is added |
| `RelayStore.AckMarksOnlyItsRow` | crates/server/src/db.rs:669-689 | an ack sets the delivery time of the one matching row, keeps an earlier time, and notifies if and only if there is such a row |
| `RelayStore.AckIsIdempotent` | crates/server/src/db.rs:669-689 | a second ack changes nothing and notifies the same sender |
| `RelayReceipts.AckNotifiesExactly` | crates/server/src/db.rs:669-689 | an ack notifies an account about a message if and only if a row with that envelope and recipient device was sent by that account and bears that message |
| `RelayReceipts.AckRecordsExactly` | crates/server/src/db.rs:669-689 | row and message are marked unless they were, the sender has exactly one update about the message, a new one at the time of the ack, and nothing else changes |
| `RelayReceipts.StatusesAreExact` | crates/server/src/db.rs:654-666 | a reply's delivery updates are, in order, exactly the account's between both status cursors, at most 200, and fewer only when there are no more |
| `RelayReceipts.EnvelopesAreExact` | crates/server/src/db.rs:637-653 | a reply's envelopes are, in order, exactly the device's between both cursors, at most as many as asked for within 1 and 200, and fewer only when there are no more |
| `RelayStore.AckKeepsInv` | crates/server/src/db.rs:669-689 | acknowledging keeps the relay's invariant |
| `RelayIntegrity.RefundIsExact` | crates/server/migrations/0003_storage_and_devices.sql:26-33 | the delete trigger subtracts exactly the bytes of the deleted rows |
| `RelayIntegrity.ClampNeverFires` | crates/server/migrations/0003_storage_and_devices.sql:30-30 | the trigger's clamp at zero never takes effect |
| `RelayIntegrity.TotalUsage` | crates/server/migrations/0003_storage_and_devices.sql:16-24 | the counters sum to the bytes of all stored envelopes |
| `RelayIntegrity.CleanupDeliveredKeepsInv` | crates/server/src/db.rs:532-582 | retention cleanup keeps the invariant |
| `RelayIntegrity.CleanupRevokedKeepsInv` | crates/server/src/db.rs:584-629 | emptying a revoked device's queue keeps the invariant |
| `RelayIntegrity.PruneRemovesTargets` | crates/server/src/admin.rs:549-608 | a prune removes exactly the selected logical messages, with all their envelopes and updates |
| `RelayIntegrity.PruneKeepsInv` | crates/server/src/admin.rs:549-608 | pruning keeps the invariant |
| `RelayIntegrity.DeleteUserKeepsForeignKeys` | crates/server/src/admin.rs:691-750 | after every single statement of account deletion all foreign keys hold |
| `RelayIntegrity.DeleteUserLeavesNoTrace` | crates/server/src/admin.rs:691-750 | no row of any table mentions the deleted account or its devices |
| `RelayIntegrity.DeleteUserLeavesOthers` | crates/server/src/admin.rs:691-750 | accounts, devices, messages, updates and envelopes among other accounts are untouched |
| `RelayIntegrity.DeleteUserKeepsInv` | crates/server/src/admin.rs:691-750 | account deletion keeps the invariant |
| `RelayCleanup.BatchAccounts` | crates/server/src/db.rs:532-582 | a cleanup batch reports exactly what disappeared, and only expired envelopes disappear |
| `RelayCleanup.BatchThenAll` | crates/server/src/admin.rs:424-434 | a batch followed by an unbounded cleanup is an unbounded cleanup; a short batch already is one |
| `RelayCleanup.CleanupAllKeepsTheRest` | crates/server/src/admin.rs:402-444 | what is left is exactly what was not delivered before the cutoff |
| `RelayRemovals.CleanupEmptiesExactly` | crates/server/src/db.rs:584-629 | exactly the rows and keys of the device go; messages and updates are exactly those with a row left |
| `RelayRemovals.RevokesExactly` | crates/server/src/db.rs:584-629 | revoking a device of the account marks just that one and empties its queue and keys |
| `RelayRemovals.ResetsExactly` | crates/server/src/admin.rs:214-242 | a reset revokes every device of the account, drops their keys and forgets master key and revision, and nothing else |
| `RelayRemovals.RetiresExactly` | crates/server/src/db.rs:532-582 | a cleanup removes envelopes delivered before the cutoff, oldest first, at most as many as allowed, and fewer only when none is left |
| `RelayRemovals.PrunesExactly` | crates/server/src/admin.rs:549-608 | a prune removes exactly the conversation's messages accepted before the cutoff, if asked only those delivered to every device, with their envelopes and updates |
| `RelayDb.Db.StoreEnvelopes` | crates/server/src/db.rs:364-515 | a batch is stored if and only if it is one message to one peer, agrees with what is stored, reaches a device of the peer in use and fits both quotas; the rows added are exactly the missing ones for devices in use; a refusal names what is wrong and leaves every table unchanged |
| `RelayDb.Db.Ack` | crates/server/src/db.rs:669-689 | the account that sent the row, and no other, is notified about its message; the row and the message are marked once, and the sender has one update about it; any other ack changes nothing |
| `RelayDb.Db.CleanupDelivered` | crates/server/src/db.rs:532-582 | one batch removes the oldest expired envelopes and counts them |
| `RelayDb.Db.Preview` | crates/server/src/admin.rs:405-417 | the preview counts the expired envelopes and their bytes |
| `RelayDb.Db.CleanupStorage` | crates/server/src/admin.rs:402-444 | the loop ends having removed exactly the expired envelopes, with totals equal to the preview |
| `RelayDb.Db.CleanupRevokedDevice` | crates/server/src/db.rs:584-629 | rows and keys of the device are gone, those of all other devices are there, and messages and updates are exactly those with a row left |
| `RelayDb.Db.PruneConversation` | crates/server/src/admin.rs:549-608 | the conversation's messages accepted before the cutoff, if asked only the delivered ones, are gone with all rows and updates, and nothing else is |
| `RelayDb.Db.DeleteUserRecords` | crates/server/src/admin.rs:691-750 | the ordered statements are the specified function, with foreign keys intact in between |
| `RelayDb.Db.ActivateDevice` | crates/server/src/db.rs:774-802 | activation succeeds exactly for the next revision and a pending device of the account; then just that device stops waiting, becomes active unless it was revoked, and the revision moves on by one; the invariant and every roster bound are kept |
| `RelayRoster.StepKeeps` | crates/server/src/ws.rs:779-860 | one roster operation keeps the bounds and the meaning of the revision |
| `RelayRoster.RunKeeps` | crates/server/src/ws.rs:779-860 | over any run at most 2 devices wait, at most 9 are active or waiting, and the revision is one plus the activations since bootstrap |
| `RosterRuns.BoundsFromStart` | crates/server/src/ws.rs:779-860 | the same bounds over any run from an empty relay |
| `RosterRuns.ActivationConflicts` | crates/server/src/db.rs:774-802 | of two activations for the same revision of an account the second fails, whatever happens in between, unless the account is reset or deleted there |
| `RosterRuns.ResetFreesRevision` | crates/server/src/admin.rs:214-242 | a run with a reset in which two activations for the same revision succeed |
| `RosterRuns.NineDevicesAreReached` | crates/server/src/ws.rs:817-820 | a run from an empty relay in which two devices ask while seven are active, and nine are active in the end |
| `RosterAnswers.FirstDeviceExactly` | crates/server/src/ws.rs:743-800 | a first device joins at once if and only if it is certified, the account has no master key and nobody waits |
| `RosterAnswers.FurtherDeviceExactly` | crates/server/src/ws.rs:800-860 | a further device waits if and only if it names the session's master key, brings no certificate and both limits have room |
| `RosterAnswers.ActivatesExactly` | crates/server/src/db.rs:774-802 | an activation counts if and only if a device in use of an enabled account asks for it, for the next revision and a waiting device of the account; only that device and the revision change |
| `RosterAnswers.InUseMeansApproved` | crates/server/src/db.rs:774-802 | over any run a device comes into use only as a certified first device or by an activation for the next revision from a device in use |
| `RosterAnswers.KeysExactly` | crates/server/src/db.rs:300-342 | publishing adds exactly the given keys; a claimed key is gone, and only a device in use has its keys claimed |
| `RosterAnswers.EventExactly` | crates/server/src/ws.rs:1115-1165 | a pairing event is stored if and only if a waiting device of the account is at one of its ends |
| `RelayRun.RunKeepsInv` | crates/server/src/db.rs:300-802 | the whole invariant holds over any run of store, ack, cleanup, prune, bootstrap, activation, revocation, reset, deletion, account state changes, key publication and claims, and pairing events |
| `RelayRun.InvFromStart` | crates/server/src/db.rs:300-802 | from an empty relay the invariant holds at any time |
| `RelayRun.RunKeepsQuota` | crates/server/src/db.rs:440-478 | under fixed limits no run exceeds a quota |
| `RelayRun.QuotaFromStart` | crates/server/src/db.rs:440-478 | from an empty relay no run under fixed limits exceeds a quota |
| `RelayRun.SideReshapes` | crates/server/src/db.rs:300-342 | publishing and claiming keys, pairing events and account states touch no message, and every key and event still refers to a device that is there |
| `RelayRun.ApplyFollows` | crates/server/src/db.rs:364-802 | rows never change cursor or envelope, new ones are above every earlier cursor, and only an ack by the recipient marks delivery |
| `RelayResend.RowWasThere` | crates/server/src/db.rs:364-802 | a row that is there after a run, under a cursor from before it, was there all along, with the same logical message |
| `RelayResend.RetransmissionAfterRun` | crates/server/src/db.rs:364-515 | a batch sent again after any run of the relay, with the same recipients active and its rows not yet cleaned, is accepted with the same cursors and changes no table |
| `ClientSync.CommitsAscend` | crates/client/src/app.rs:4711-5240 | wherever a batch stops, rows are committed in ascending order above the old cursor, the cursor is the last one's, and only committed rows are acknowledged |
| `ClientSync.NothingSkipped` | crates/client/src/app.rs:4721-4724 | what the cursor moves past within an ascending batch is committed |
| `ClientSync.StaleBatchIsIgnored` | crates/client/src/app.rs:4721-4724 | rows at or below the cursor do nothing |
| `BatchAnswers.RowsAreDecided` | crates/client/src/app.rs:4711-5240 | rows are committed with the effects that their own verdicts ask for, and acked in order |
| `BatchAnswers.WillingRowsAreCommitted` | crates/client/src/app.rs:4711-5240 | a batch whose rows all decrypt is committed whole, but for what was committed before |
| `BatchAnswers.ReadsExactly` | crates/client/src/local.rs:994-1027 | receipts mark as read exactly the named messages that this account sent to the reader |
| `BatchAnswers.UpdatesExactly` | crates/client/src/app.rs:4711-4720 | delivery updates raise exactly the named messages to delivered, and lower none |
| `BatchAnswers.StatusCursorExactly` | crates/client/src/app.rs:5203-5240 | the status cursor moves only when the whole batch was handled, and then to what the batch reached |
| `MessageHistory.BatchAgrees` | crates/client/src/app.rs:4711-5240 | the messages after a batch are those that its delivery updates and then its committed rows leave, wherever it stopped |
| `Delivery.CutCompletionResumes` | crates/client/src/app.rs:4479-4496 | completing an accepted message again after a crash, wherever the crash cut it short, ends as if it had never been cut |
| `DeliveryPull.SyncIsContiguous` | crates/server/src/db.rs:637-667 | a reply holds, in cursor order, every envelope of the device between the requested cursor and the reply's own |
| `RelayReceipts.HasMoreExactly` | crates/server/src/db.rs:637-667 | a reply says that there is more if and only if the device has an envelope beyond it |
| `DeliveryPull.ReplyIsComplete` | crates/client/src/app.rs:4711-5240 | handling any reply, even stale or repeated, leaves no stored envelope at or below the cursor uncommitted |
| `DeliveryPull.PushKeepsExactly` | crates/server/src/ws.rs:1016-1043 | a committed push keeps that if and only if no stored envelope of the device lies strictly between the cursor and the pushed one |
| `DeliveryPull.RunIsSound` | crates/client/src/app.rs:4711-5240 | over any run, pushes included: commits are in strictly ascending cursor order, and every ack and delivery mark stands for a commit |
| `DeliveryPull.CommittedInOrder` | crates/client/src/local.rs:572-593 | over any run, pushes included, rows are committed in ascending cursor order, so no row twice |
| `DeliveryOnce.CommittedOnce` | crates/client/src/app.rs:4721-4724 | over any run in which the relay removes nothing, no envelope id is committed twice |
| `DeliveryOnce.RecommitNeedsRemoval` | crates/server/src/db.rs:480-514 | over any run, an envelope id is committed a second time only if the relay had dropped the earlier row before it stored the later one |
| `DeliveryOnce.StoreRenewsExactly` | crates/server/src/db.rs:480-514 | an accepted batch adds a row for an envelope if and only if no stored row has its id |
| `DeliveryAgain.CommittedTwice` | crates/server/src/db.rs:532-582 | a run from a device just set up in which an envelope is delivered, cleaned up, stored again and committed again |
| `DeliveryPull.SafeRunIsComplete` | crates/client/src/app.rs:4711-5240 | no loss over any run whose pushes arrive without a gap |
| `DeliveryPull.PullRunIsComplete` | crates/client/src/app.rs:4711-5240 | no loss over any run without pushes, from a device just set up |
| `DeliveryLoss.LostForever` | crates/client/src/app.rs:4721-4724 | an uncommitted row at or below the cursor is committed in no continuation |
| `DeliveryLoss.PushCanLose` | crates/server/src/ws.rs:1016-1043 | a run from a device just set up in which a push overtakes a reply and a stored row is committed in no continuation |
| `DeliveryOnce.LostUnlessStoredAgain` | crates/client/src/app.rs:4721-4724 | the envelope of a stored row that the cursor passed uncommitted is committed later only if the relay drops it and stores it again |
| `DeliveryLoss.DeliveredMeansCommitted` | crates/client/src/app.rs:5186-5201 | in every reachable state a delivered envelope was committed by its recipient |
| `DeliveryLoss.CleanupDropsOnlyCommitted` | crates/server/src/db.rs:532-582 | retention cleanup removes no envelope that its recipient has not committed |
| `DeliveryLoss.PruneDropsOnlyCommitted` | crates/server/src/admin.rs:549-608 | neither does pruning delivered messages |
| `DeliveryOutbox.RunKeepsDurable` | crates/client/src/local.rs:534-553 | queued messages stay queued over any run until accepted or deleted |
| `DeliveryOutbox.OutboxIsDurable` | crates/client/src/app.rs:4479-4496 | every message composed here is queued or was stored by the relay, unless its conversation was deleted here afterwards |
| `DeliveryHistory.StoreIsHistory` | crates/client/src/local.rs:534-738 | over any run the stored messages are exactly those that the run's history of commits, messages written and deletions leaves |
| `DeliveryHistory.ReceivedIsStored` | crates/client/src/local.rs:572-670 | over any run a message received or written is stored in the end, unchanged but for a higher status, unless its conversation was deleted afterwards |
| `DeliveryHistory.CommittedIsStored` | crates/client/src/local.rs:572-670 | every row committed over a run has left its message in the store, unless that was deleted afterwards |
| `DeliveryStatus.UpdatesAreApplied` | crates/server/src/db.rs:654-666 | over any run from a device just set up every update of the account at or below the status cursor was handled, and the message it found stored is at least delivered until it is deleted |
| `ClientFlight.AnswerKeepsFlagExactly` | crates/client/src/app.rs:4571-4709 | an answer keeps keys, single sync and single sends; the flag stays exact if and only if a sync is answered by a batch or an error |
| `ClientFlight.ExpireKeepsBooked` | crates/client/src/app.rs:4448-4477 | expiry keeps the books |
| `ClientFlight.ExpiresExactly` | crates/client/src/app.rs:4448-4477 | exactly the requests whose deadline has come are forgotten, and the sends among them wait 30 seconds |
| `ClientFlight.RequestLives` | crates/client/src/app.rs:4431-4477 | a request is in flight for 20 seconds and not longer |
| `ClientFlight.AnswerTakesExactly` | crates/client/src/app.rs:4571-4709 | an answer takes out exactly its own request and deadline; an error that closes the connection takes out all |
| `ClientFlight.AnswerHoldsExactly` | crates/client/src/app.rs:4666-4709 | acceptance frees a message; an error to a send delays it for 30 seconds or blocks it for good; no other answer delays or blocks any |
| `ClientFlight.ResendKeepsBooked` | crates/client/src/app.rs:5683-5720 | a pass over the outbox never sends a message that is in flight |
| `ClientFlight.ResendSendsAll` | crates/client/src/app.rs:5683-5720 | after a pass everything neither blocked nor waiting nor refused is in flight |
| `ClientRun.AnnounceKeepsOk` | crates/client/src/app.rs:5578-5681 | announcing pending deletions never sends an event twice |
| `ClientRun.AnnouncesAll` | crates/client/src/app.rs:5578-5681 | with a device to tell and room in the queue, every event not queued before is queued with its frame and on its way |
| `ClientRun.NobodyToTell` | crates/client/src/app.rs:5578-5681 | with no other device to tell, the events not queued are settled, and nothing is sent |
| `ClientRun.RunKeepsBooks` | crates/client/src/app.rs:4408-4709 | over any run deadlines and requests have the same keys, at most one sync is in flight and the flag is set exactly then, and at most one send per message is in flight |
| `ClientRun.BooksFromStart` | crates/client/src/app.rs:4408-4709 | the same from a new client on |
| `ClientWaits.TimedOutSendWaits` | crates/client/src/app.rs:4448-4477 | after a send timed out, over any run without a retry by the user, a restart or an acceptance, no pass repeats it within 30 seconds, and a pass repeats it if and only if they are over |
| `ClientWaits.RefusedSendStays` | crates/client/src/app.rs:4670-4678 | after a send was refused for good, no pass of any such run repeats it |
| `ClientApp.App.DispatchBackground` | crates/client/src/app.rs:4431-4446 | a dispatch adds one request with its deadline under an id not in use, or changes nothing when the queue is full; the books stay right unless it repeats a sync or a send in flight |
| `ClientApp.App.ExpireBackgroundRequests` | crates/client/src/app.rs:4448-4477 | the loop forgets exactly the overdue requests, in any order |
| `ClientApp.App.HandleAnswer` | crates/client/src/app.rs:4666-4709 | the books stay right if and only if the answer is no stray one; a refused send waits 30 seconds, or for the user when it was refused for good |
| `ClientApp.App.HandleAccepted` | crates/client/src/app.rs:4590-4595 | afterwards the message is neither queued, blocked nor waiting, its status is at least sent, no deletion is pending under its id, and the books stay right unless it answers a sync |
| `ClientApp.App.HandleBatchFrame` | crates/client/src/app.rs:4579-4589 | a batch clears the flag as specified and is then handled |
| `ClientApp.App.HandleSyncBatch` | crates/client/src/app.rs:4711-5240 | the loop over a batch ends with exactly the messages that its delivery updates and its committed rows leave, in that order, and is the specified function of the store |
| `ClientApp.App.ResendOutbox` | crates/client/src/app.rs:5683-5720 | the pass over the outbox is the specified function |
| `ClientApp.App.SyncPendingDeletions` | crates/client/src/app.rs:5578-5681 | the announcing loop is the specified function |
| `ClientStore.LocalStore.CommitOutgoing` | crates/client/src/local.rs:534-553 | the message is stored under its id, or the one stored before is kept; its outbox entry is there, and nothing else but the summary changes |
| `ClientStore.LocalStore.Commit` | crates/client/src/local.rs:572-670 | effect and cursor are committed together or nothing is: a received message is stored, with a request also its notice; a deletion leaves nothing of the conversation; nothing else changes; it fails if and only if a deletion brings a sync event that stands for another peer |
| `ClientStore.LocalStore.DeleteEverywhere` | crates/client/src/local.rs:713-738 | no message of the conversation is left, every other is, and its deletion is pending, or, exactly when the sync event stands for another peer, nothing changes |
| `ClientStore.LocalStore.UpdateStatus` | crates/client/src/local.rs:994-1007 | the message has the higher of both statuses; nothing else but its summary changes |
| `ClientStore.LocalStore.VerifyContact` | crates/client/src/local.rs:870-890 | the peer has no tombstone and its announcement is no longer queued, while those of other peers are untouched |
| `ClientFanout.FanOutPassesExactly` | crates/server/src/db.rs:375-391 | a fan-out to own and peer devices passes the relay's checks if and only if some copy goes to the peer |
| `ClientFanout.DeletionFanOutIsRefused` | crates/client/src/app.rs:5578-5681 | the announcement of a deleted conversation is refused in every state of the relay |
| `ClientFanout.PeerRowsAreAddressed` | crates/server/src/db.rs:375-438 | an envelope from another account carries the id of the conversation with that account |
| `LocalIntegrity.RunKeepsSummaries` | crates/client/migrations/0004_status_codes.sql:12-35 | after any run unread counts and last activities are what recounting the messages gives, and exactly conversations with messages have a summary |
| `LocalIntegrity.StoreFromStart` | crates/client/migrations/0004_status_codes.sql:12-35 | from a new store on, summaries are exact and no two tombstones share a sync event |
| `LocalIntegrity.RunGrowsStatus` | crates/client/src/local.rs:994-1027 | a stored message's status never goes down and nothing else about it changes |
| `LocalIntegrity.DeletionIsExact` | crates/client/src/local.rs:1239-1276 | deletion removes messages, drafts, summary, contact and chat notices of the conversation, and of any other nothing |
| `LocalIntegrity.OutboxSurvivesExactly` | crates/client/src/local.rs:1244-1251 | an outbox entry goes if and only if its message belongs to the conversation |
| `LocalIntegrity.QueueIsClearedExactly` | crates/client/src/local.rs:1244-1251 | after a deletion nothing queued is for the conversation if and only if every frame that was queued for it belonged to one of its messages |
| `LocalIntegrity.RunKeepsUniqueSyncIds` | crates/client/src/local.rs:1278-1319 | no two tombstones share a sync event |
| `LocalIntegrity.UpsertFailsExactly` | crates/client/src/local.rs:1278-1319 | a deletion is aborted if and only if its sync event takes over and already stands for another peer |
| `LocalIntegrity.DeletionTimeIsMaximum` | crates/client/src/local.rs:1278-1319 | a tombstone's time is the latest deletion applied since its peer was last verified |
| `LocalIntegrity.PendingDeletionIsKept` | crates/client/src/local.rs:1300-1306 | a pending deletion keeps its sync event until exactly that event is settled |
| `LocalIntegrity.SettlingIsExact` | crates/client/src/local.rs:804-810 | settling an event clears exactly its tombstone |
| `LocalIntegrity.RemoteMergesCommute` | crates/client/src/local.rs:1278-1319 | two remote deletions merge to the same tombstone in either order if and only if their times differ, or both come before the known one, or they agree; at equal times the later merge wins |
| `LocalCommits.CommitTook` | crates/client/src/local.rs:572-670 | each effect in full: which messages, notices, drafts, summaries, contacts, frames and tombstones are there afterwards, and that nothing else changes |
| `LocalCommits.EverywhereErases` | crates/client/src/local.rs:713-738 | a deletion here leaves every other conversation and frame, and a pending tombstone |
| `LocalCommits.StatusRises` | crates/client/src/local.rs:994-1007 | the message has the higher of both statuses; nothing else but its summary changes |
| `LocalCommits.ReceiptIsForSender` | crates/client/src/local.rs:1009-1027 | a receipt counts only for a message that this account sent to the reader |
| `LocalCommits.AcceptanceCompletes` | crates/client/src/app.rs:4479-4496 | acceptance takes the frame from the queue, settles the event and marks the message as sent, and nothing else |
| `LocalCommits.VerificationClears` | crates/client/src/local.rs:870-890 | verifying marks the contact and forgets its tombstone and announcement, and nothing else |
| `Contacts.ContactTable.UpsertContact` | crates/client/src/local.rs:672-683 | the lookup by name followed by the upsert is the specified function |
| `Contacts.RunKeepsPinned` | crates/client/src/local.rs:672-683 | over any run a contact shown as verified has the key that was checked |
| `Contacts.PinnedFromStart` | crates/client/src/local.rs:672-683 | from an empty address book on, a contact shown as verified has the key that was checked |
| `Contacts.StaysVerifiedExactly` | crates/client/src/local.rs:672-683 | a fetched bundle leaves a contact verified if and only if name and key are the verified ones |
| `Contacts.UpsertExactly` | crates/client/src/local.rs:672-683 | a bundle is refused if and only if another account has its name; otherwise only its account's contact changes, and a changed key is reported if and only if that contact had this name and another key |
| `Contacts.ChangeWarningIsCleared` | crates/client/src/local.rs:672-683 | fetching a changed bundle twice clears the warning but not the missing verification |
| `Paging.LoadedIsSuffix` | crates/client/src/local.rs:900-929 | latest page plus n older pages is exactly the end of the history, in order, without gap or repetition |
| `Paging.ShortPageMeansExhausted` | crates/client/src/app.rs:3772-3783 | a short page means the whole history is loaded |
| `Paging.ArrivalsDoNotShift` | crates/client/src/local.rs:913-929 | messages above the anchor do not change the next older page |
| `Pairing.SecretOnlyOnConfirmedChannel` | crates/client/src/app.rs:4327-4386 | over any run with restarts and a hostile relay, the master secret is sealed only on a channel both ends confirmed and the relay cannot open |
| `Pairing.InstalledFromConfirmedChannel` | crates/client/src/app.rs:4250-4275 | the secret is installed only from a channel this device confirmed and the approver sent it on |
| `Pairing.ActiveOnlyAfterInstalling` | crates/client/src/app.rs:4293-4322 | a device leaves the pending state, in memory and on disk, only with the secret installed |
| `Pairing.RestartNeedsNewConfirmation` | crates/client/src/app.rs:854-904 | after a restart, over any run in which the user does not confirm again, no secret is installed and the profile keeps the one it had saved |
| `PairingCompletes.PairingEnds` | crates/client/src/app.rs:4140-4386 | an undisturbed pairing ends, whoever confirms first and whenever the confirmation arrives, with an active device that holds the master secret in memory and on disk, where it was saved as soon as it came |
| `PairingApp.PendingDevice.HandleBootstrap` | crates/client/src/app.rs:4250-4275 | the secret is taken if and only if the device waits, its session is confirmed and the packet came on that session's channel; nothing else changes, and every channel a secret was taken from was confirmed here |
| `PairingApp.PendingDevice.HandleActivated` | crates/client/src/app.rs:4293-4322 | the device becomes active only with a secret taken from a channel that was confirmed here |
| `PairingApp.PendingDevice.RestorePairingState` | crates/client/src/app.rs:854-904 | the profile is the saved one and whatever session comes back is unconfirmed |
| `PairingApp.ApprovingDevice.ConfirmPairing` | crates/client/src/app.rs:4140-4180 | the secret goes out if and only if the other side's confirmation had come in, on that channel, and ends the session |
| `PairingApp.ApprovingDevice.HandleSasConfirmed` | crates/client/src/app.rs:4229-4249 | a confirmation sends the secret if and only if it came on the channel that the user had confirmed, and ends the session |
| `EditorModel.WrapRoundTrip` | crates/client/src/app.rs:6303-6328 | a cursor's cell maps back to a cursor in the same cell, and to the same cursor if and only if it is not before a newline that ends a full row |
| `EditorModel.CellMapsToGrapheme` | crates/client/src/editor.rs:178-224 | every cell of a drawn grapheme maps to that grapheme |
| `EditorModel.CellsAreDisjoint` | crates/client/src/app.rs:6303-6328 | graphemes are drawn in order and share no cell |
| `EditorRows.NextStands` | crates/client/src/app.rs:6303-6328 | text after a newline starts the next row; other text goes on in its row if and only if it fits there |
| `EditorRows.CursorStands` | crates/client/src/app.rs:6303-6328 | the cursor stands behind the grapheme before it, or at the start of the next row when that one fills its row |
| `EditorRows.RowsFit` | crates/client/src/app.rs:6303-6328 | no row is overfull, but for a grapheme wider than a row, which starts its row |
| `EditorRows.ClickIsFirst` | crates/client/src/editor.rs:178-224 | a click anywhere, also in an empty cell, puts the cursor before the first grapheme that does not lie before it |
| `EditorModel.AtColumnIsGreatest` | crates/client/src/editor.rs:241-254 | the column search gives the greatest boundary of the line with at most that width |
| `EditorModel.VerticalLands` | crates/client/src/editor.rs:102-131 | a vertical move lands on the adjacent line and keeps the meaning of the stored column |
| `EditorModel.ManyBack` | crates/client/src/editor.rs:102-131 | n moves that all find a line, then n moves back, restore the cursor |
| `EditorModel.OffsetsIncrease` | crates/client/src/editor.rs:227-239 | byte offsets and grapheme boundaries determine each other |
| `Editor.EditorState.ByteAtDisplayColumn` | crates/client/src/editor.rs:241-254 | the loop computes that boundary |
| `Editor.EditorState.MoveVertical` | crates/client/src/editor.rs:102-131 | the method is the specified move |
| `Editor.EditorState.SetCursorByVisualPosition` | crates/client/src/editor.rs:178-224 | the loop is the specified mapping |
| `Editor.EditorState.Insert` | crates/client/src/editor.rs:36-67 | line endings, tabs and control characters are replaced first; then the longest prefix that keeps the byte limit is inserted, and the result says whether that was all |
| `EditorPaste.Normalize` | crates/client/src/editor.rs:36-51 | the loop over the characters is the specified replacement |
| `EditorPaste.PartsAgreeExactly` | crates/client/src/editor.rs:40-51 | replacing in two parts gives the same text if and only if the cut does not go through a carriage return and line feed |
| `EditorPaste.SinglesAre` | crates/client/src/editor.rs:36-51 | what each character becomes: line endings one newline, a tab four spaces, other control characters U+FFFD, the rest itself |
| `Editor.InsertionKeepsLimit` | crates/client/src/editor.rs:36-67 | what is inserted keeps the limit and nothing longer would |
| `Editor.EditorCursorPosition` | crates/client/src/app.rs:6303-6328 | the loop computes the cursor's cell, saturated to 16 bits |
| `Limiter.TokenBucket.TakeRate` | crates/server/src/ws.rs:103-116 | the bucket never holds more than its burst, and all takes accepted so far are at most burst plus rate times the time since its start |
| `Limiter.WindowIsBounded` | crates/server/src/ws.rs:92-117 | in any window of any run accepted takes are at most burst plus rate times its length |
| `LimiterDecisions.EvictionIsInvisibleExactly` | crates/server/src/ws.rs:1537-1572 | replacing an idle bucket by a full one changes no later decision, whatever it held and whatever is asked, if and only if a bucket refills while idle |
| `Limiter.EvictionChangesNoDecision` | crates/server/src/ws.rs:1537-1572 | then every decision of any run is that of a table that keeps all buckets, apart from refusals for lack of room |
| `Limiter.TableIsBounded` | crates/server/src/ws.rs:1537-1572 | a table that starts empty never exceeds its capacity over any attempts |
| `Limiter.DefaultsRefill` | crates/server/src/config.rs:57-59 | the default limits satisfy the condition |
| `Limiter.PasswordGate.AllowPasswordAttempt` | crates/server/src/ws.rs:1537-1572 | the method is the specified pair of guarded tables |
| `LimiterGate.AttemptsAreBounded` | crates/server/src/ws.rs:1537-1572 | with limits under which a bucket refills while idle, however attempts are spread and whatever is evicted, in any period an account and an address get through at most burst plus rate times the period |
| `LimiterGate.AllowsExactly` | crates/server/src/ws.rs:1537-1572 | with room in both tables an attempt gets through if and only if its address and its account each have a token |
| `Admission.RunKeepsCounts` | crates/server/src/ws.rs:136-167 | over any run counters are the numbers of open connections, their sum is the total and every limit holds |
| `Admission.CountsFromStart` | crates/server/src/ws.rs:136-167 | the same from a relay without connections |
| `Admission.NothingSaturates` | crates/server/src/ws.rs:160-167 | no subtraction is ever made from zero |
| `Admission.WaitingAreConnected` | crates/server/src/ws.rs:155-167 | unauthenticated connections never exceed open ones at any address |
| `Admission.Gatekeeper.Admit` | crates/server/src/ws.rs:136-153 | a connection is let in if and only if the open connections, those of its address and the waiting ones of its address are all below their limits |
| `Admission.Gatekeeper.Release` | crates/server/src/ws.rs:160-167 | closing a connection takes exactly that one out of the counts, and the counters stay exact |
| `Admission.StaleUnregisterIsHarmless` | crates/server/src/ws.rs:169-218 | a connection stays reachable until its own end or replacement, whatever stale unregisters arrive |
| `Admission.ReachableExactly` | crates/server/src/ws.rs:169-218 | after any operations a connection is reachable if and only if it was registered and neither ended nor replaced since |
| `Encodings.FieldsInjective` | crates/protocol/src/lib.rs:51-60 | length-prefixed fields shorter than 2^32 bytes are determined by their encoding |
| `Encodings.CertificateInjective` | crates/protocol/src/lib.rs:43-62 | certificate payloads are equal only for equal certificates |
| `Encodings.ChallengeInjective` | crates/protocol/src/lib.rs:64-83 | challenge payloads, with the expiry as eight big-endian bytes, are equal only for equal challenges |
| `Encodings.Be64Determines` | crates/protocol/src/lib.rs:81-81 | the eight bytes determine the 64-bit integer, negative ones included |
| `Encodings.Be64Value` | crates/protocol/src/lib.rs:81-81 | the eight bytes are the number in two's complement, high byte first |
| `Encodings.Be32Value` | crates/protocol/src/lib.rs:56-58 | the four bytes are the length modulo 2^32, high byte first |
| `Encodings.PayloadLayout` | crates/protocol/src/lib.rs:43-83 | which field stands where in both payloads |
| `Encodings.PayloadsAreApart` | crates/protocol/src/lib.rs:43-83 | no certificate payload is a challenge payload |
| `Encodings.DeviceCertificatePayload` | crates/protocol/src/lib.rs:43-62 | the loop builds that payload |
| `Encodings.AuthChallengePayload` | crates/protocol/src/lib.rs:64-83 | the loop builds that payload |
| `Encodings.HexString` | crates/protocol/src/lib.rs:85-93 | the loop writes two digits for each byte |
| `Encodings.HexInjective` | crates/protocol/src/lib.rs:85-93 | hexadecimal determines the bytes |
| `Encodings.HexIs` | crates/protocol/src/lib.rs:85-93 | two digits per byte, high half first |
| `Encodings.OrderedIsDictionary` | crates/protocol/src/lib.rs:24-41 | the pair is ordered as in a dictionary |
| `Encodings.ConversationInputIdentifiesPair` | crates/protocol/src/lib.rs:24-41 | the digest's input determines exactly the unordered pair of accounts |
| `Encodings.BlobRoundTrip` | crates/crypto/src/vault.rs:30-89 | what is encoded is decoded |
| `Encodings.BlobReadBack` | crates/crypto/src/vault.rs:30-89 | what is decoded is what was encoded, and exactly tagged input of full length is decoded |
| `Encodings.BlobLayout` | crates/crypto/src/vault.rs:30-89 | tag, version, salt, nonce and ciphertext follow each other |
| `Encodings.TagsAreApart` | crates/crypto/src/vault.rs:30-89 | a wrapped key is never read as a blob nor the other way round |
| `Encodings.InfoIdentifiesPairing` | crates/crypto/src/pairing.rs:47-57 | both ends derive from the same input exactly if pairing id and key pair agree |
| `Encodings.EndsDeriveTheSame` | crates/crypto/src/pairing.rs:42-73 | with a commutative key agreement both ends derive the same key and the same short authentication string |
| `Sas.DecimalsInRange` | crates/crypto/src/pairing.rs:62-70 | the three numbers lie in 1000..9191 |
| `Sas.DecimalsDetermine39Bits` | crates/crypto/src/pairing.rs:62-70 | together they determine exactly the top 39 of the 40 bits used |
| `Sas.NumbersAreTheBits` | crates/crypto/src/pairing.rs:62-70 | less 1000 the three numbers are, 13 bits each, the five bytes without their last bit |

## Left out

- Rendering, key dispatch, themes, the emoji picker and both terminal interfaces.
- Sockets, TLS, key pinning, the HTTP upgrade, configuration parsing, file permissions and backups.
- Olm, signatures, Argon2 and SHA-256 internals; encryption and key agreement are ideal.
- protobuf, postcard and JSON codecs, and legacy formats: a value without its tag is only known to be left to the JSON decoder.
- Races between server tasks outside a transaction: each handler is one atomic step.
- Progress: nothing is said about when a message arrives, only that loops end.
- Side effects of handling an envelope that come before its commit, other than receipts: contact refresh and notifications saved for chat requests and responses.
- Read receipts that the client sends while it handles a batch are separate steps of a run.
- Message bodies, drafts' contents, search, import and export of contacts and history during pairing.
- A confirmation that reaches the pending device itself: it only changes a status line.
- Signatures and limits of published keys, and which key of a device is the oldest.
- Audit log, password hashing policy, maintenance scheduling, reconnect back-off.
- Unicode: graphemes are atoms with positive byte length and width, so clusters never merge at a splice; word segmentation is a parameter.
- The editor's cursor is a boundary number instead of the byte offset that it determines.
- The vector of fields that `AppendFields` builds is a sequence, not a growing buffer; aliasing is not captured.
- A device that registers on one connection under two device ids, and the push channel's own buffering.
- `user_version` migrations and the 64-bit limits of counters, which are unbounded here.
