# Verified models of the gateway's stateful parts

gows-plus is a WhatsApp gateway. Most of it hands messages between a client library, a database
and a gRPC stream; six small stateful pieces inside it carry the promises its users rely on. This
project models those pieces in Dafny 4.11 and proves the promises for every input, every run and
every interleaving. `dafny verify dfyconfig.toml` checks all of it.

| file | what it models |
|---|---|
| `Types.dfy` | addresses and optional values shared by the rest |
| `StatusAcks.dfy` | the status-ack table, deduplication, and why the table is a pointwise maximum |
| `StatusAckStore.dfy` | the store: chunked upserts, summaries, the merge of per-device rows, deletions |
| `StatusAckWriter.dfy` | the batching writer: queue, batch, flush, prune, stop, drain, under any interleaving |
| `LastMessages.dfy` | the last message per chat with @lid chats merged, against the single grouped query |
| `MessageTable.dfy` | guarded message upserts, and delivery receipts raising a status |
| `MediaRetry.dfy` | the media-retry protocol as a state machine over single map, cache and channel operations, and the two functions that run it among any other goroutines |
| `EventFanout.dfy` | event listeners with bounded buffers, drop counters and poisoning |
| `GroupUpdates.dfy` | `ParticipantsMap` and `UpdateGroupInfo` |
| `GroupCache.dfy` | the group cache: refresh, update series, disappearing-message settings |
| `StatusBroadcast.dfy` | batched status sending with retries and 64-bit waits |
| `MemberLabels.dfy` | last-write-wins member tags with tombstones |

Code that updates objects in place is modelled by classes and loops whose contracts tie the new
state to a function of the old one; the properties are then proved about those functions. A SQL
table is a map with the stated upsert, delete and select semantics, a channel is a bounded
sequence with ghost history, a lock makes a method one step. Whatever the surroundings decide is
a parameter, so that a method's contract says exactly what it does for each choice: which
statements go through, which ready case a select takes, what other goroutines do between two
steps. Rows come back in any order. Addresses are a datatype (user,
device, server).

## Results worth knowing

Some expectations are not met by the code. Each is stated with a concrete witness, and with the
exact condition under which the expectation holds where there is one.

- The merge of per-device ack rows deletes rows it could not rewrite. It is lossless if and only
  if every per-device row parses to an address that is not empty once the device is dropped
  (`MergeLosslessIffMergeable`).
- `updated_at` of an ack row depends on how records were batched (`UpdateTimeDependsOnBatching`);
  only the ack column is independent of order and batching. Splitting a batch leaves a row as it is
  if and only if the part that does not set the ack last has no later time (`SplitKeepsRowIff`).
- The listing mode of the summary counts join rows, so it agrees with the counting mode if and
  only if no counted viewer meets two rows of the @lid map (`ModesAgreeIffJoinedOnce`).
- A chat filter naming an @lid the map does not know finds nothing, not even that chat
  (`UnmappedLidFilterFindsNothing`); `SelectionExactIff` and `ChatFilterExactIff` give the exact
  conditions for the filters.
- The two-query merge equals the grouped query over the CASE expression if and only if no row in
  range has a mapped @lid with a device or an empty number (`MergeIsCaseGroupByIff`). It also relies
  on each row's jid column matching its message: `UpsertKeepsConsistentIff` says which upserts keep
  that, `HistoryKeepsConsistent` which histories do, and `MovedMessageIsLost` shows a history that
  moves a message and so loses a newer one. For one chat the condition is exact
  (`OneChatMergesExactlyIff`). For several it only goes one way, because a moved message does no
  harm while later ones hide it in both chats (`HiddenMoveIsHarmless`), and whether they do is the
  result itself.
- A media-retry leader does not look at the cache again after registering, so it can time out
  although its answer is cached (`LeaderMayMissCachedEvent`). It has an answer if and only if some
  handler looked for a waiter after the leader had registered, and has tried its send
  (`LeaderServedIff`).
- A record offered after the writer began to stop may stay unflushed, even before done closes
  (`LateRecordMayBeLost`). The line is the step in which drain finds the queue empty: what was
  enqueued before it is flushed, stopping or not, and everything is if and only if nothing was
  offered after it (`EverythingFlushedIff`).
- A pruned row forgets its ack: later writes come out as without the prune if and only if the row
  was not old or they reach its ack again (`PruneHidesAckIff`).
- A refresh answered with an empty list removes every stored group, although it is not marked
  fresh (`EmptyAnswerRemovesAllIff`). The comment in the source only speaks of failed refreshes.
- Leaving before joining would list a member twice; the fixed call order prevents it
  (`LeaveThenJoinDuplicatesIff`).
- Retry waits overflow 64 bits if and only if the last one does; five seconds is safe up to 20
  retries and not at 21 (`NoWaitOverflowsIff`, `DefaultWaitsDoNotOverflow`).

## Model

| member | source | states |
|---|---|---|
| StatusAcks.PeakMeaning | src/storage/sqlstorage/status_acks.go:302-328 | the peak of a column for a key is the maximum over exactly the records that name the key and are not skipped |
| StatusAcks.DedupeShape | src/storage/sqlstorage/status_acks.go:300-328 | deduplicated records have pairwise distinct keys, are all countable, and stand in the order in which their keys were first seen |
| StatusAcks.DedupeKeepsPeaks | src/storage/sqlstorage/status_acks.go:313-326 | per key, deduplication keeps the highest ack and the latest time, and neither adds nor loses a key |
| StatusAcks.DedupeIdempotent | src/storage/sqlstorage/status_acks.go:302-328 | deduplicating twice is deduplicating once |
| StatusAcks.BatchesArePointwiseMax | src/storage/sqlstorage/status_acks.go:47-99 | for any table, records and split into successful batches, each stored ack is the maximum of the initial ack and all countable recorded acks |
| StatusAcks.AcksAreOrderIndependent | src/storage/sqlstorage/status_acks.go:47-68 | two histories naming the same records, in any order, repetition and batching, leave the same viewers with the same acks |
| StatusAcks.AcksOnlyRise | src/storage/sqlstorage/status_acks.go:86-91 | over any run of batches no stored ack falls and no row disappears |
| StatusAcks.UpdateTimeDependsOnBatching | src/storage/sqlstorage/status_acks.go:86-91 | the same two records in one batch or in two leave different update times |
| StatusAcks.WriteRow | src/storage/sqlstorage/status_acks.go:56-99 | after any batch each row holds the highest ack and the latest time of its records if they raise the ack or the row is new, and is untouched otherwise |
| StatusAcks.SplitKeepsRowIff | src/storage/sqlstorage/status_acks.go:86-91 | splitting a batch in two leaves a row, update time included, as it is if and only if the part whose time is not kept has no later one |
| StatusAcks.SplitKeepsTableIff | src/storage/sqlstorage/status_acks.go:86-91 | the whole table is independent of the split if and only if that holds of each key |
| StatusAckStore.SqlStatusAckStore.DedupeStatusAcks | src/storage/sqlstorage/status_acks.go:302-328 | the loop with its index map computes the deduplication whose properties are proved above |
| StatusAckStore.SqlStatusAckStore.UpsertStatusAckChunk | src/storage/sqlstorage/status_acks.go:71-99 | one statement, which must not name a row twice nor bind more parameters than SQLite takes, is applied as a whole if the database takes it and not at all otherwise |
| StatusAckStore.SqlStatusAckStore.UpsertStatusAcks | src/storage/sqlstorage/status_acks.go:56-68 | the statements sent are consecutive chunks covering the deduplicated records once and in order, all but the last of 500 rows, none empty or repeating a key; it succeeds if and only if each works, and otherwise exactly the chunks before the first failure are written |
| StatusAckStore.SqlStatusAckStore.UpsertChunks | src/storage/sqlstorage/status_acks.go:58-66 | the chunk loop: which statements go out and what they write, up to the first failure |
| StatusAckStore.MergeLosslessIffMergeable | src/storage/sqlstorage/status_acks.go:188-245 | the merge keeps the persons of every message and the highest ack of each if and only if every per-device row can be rewritten |
| StatusAckStore.SqlStatusAckStore.MergeDeviceParticipants | src/storage/sqlstorage/status_acks.go:188-245 | returns the number of per-device rows found, leaves none, changes nothing when there were none (so a second call returns 0), restores the table on any error, fails only when a statement fails, and is lossless exactly when every such row can be rewritten |
| StatusAckStore.ModesAgreeIffJoinedOnce | src/storage/sqlstorage/status_acks.go:139-160 | the number of left-join rows equals the number of viewers if and only if no viewer matches two map rows |
| StatusAckStore.ModesAgreeWhenLidIsKey | src/storage/sqlstorage/status_acks.go:110-177 | with lid a key of the map, listing and counting agree on any table |
| StatusAckStore.MatchesCount | src/storage/sqlstorage/status_acks.go:139-160 | a viewer joins as many rows as the map has with its @lid |
| StatusAckStore.SqlStatusAckStore.CountSummary | src/storage/sqlstorage/status_acks.go:110-137 | counting mode returns the numbers of distinct viewers at or above delivered and read, and zeros for an empty message id |
| StatusAckStore.SqlStatusAckStore.ListSummary | src/storage/sqlstorage/status_acks.go:139-177 | listing mode counts what it lists, lists exactly the viewers at each level, an @lid under the number of its map rows unless that is empty and anybody else under their own address, and agrees with counting mode when lid is a key |
| StatusAckStore.SqlStatusAckStore.DeleteSelfViews | src/storage/sqlstorage/status_acks.go:255-285 | removes exactly the rows of the account's own non-empty users on any device; without such users there is no statement to fail; an error in counting comes after the deletion |
| StatusAckStore.PruneHidesAckIff | src/storage/sqlstorage/status_acks.go:287-298 | after old rows are deleted a later write gives the ack it would have given without the deletion, if and only if the row was not old or the new records reach its ack again |
| StatusAckWriter.RecordsMeaning | src/gows/status_ack_writer.go:73-104 | the records of a receipt are exactly: for each non-empty message id, the sender without device, at 2 for a delivery and 3 for a read, self-read or play; other kinds and empty senders give none |
| StatusAckWriter.RecordsInOrder | src/gows/status_ack_writer.go:88-103 | one record for each non-empty message id, in their order |
| StatusAckWriter.StatusAckWriter.Record | src/gows/status_ack_writer.go:73-104 | whatever others do before each of its selects, the receipt's records are offered in order, each when there is room and the select does not take a closed stopping, and it ends early only where one of these fails |
| StatusAckWriter.StepKeepsInv | src/gows/status_ack_writer.go:116-170 | every step keeps: enqueued is flushed, then batch, then queue; the batch is shorter than the flush size; each flush is non-empty and at most the flush size |
| StatusAckWriter.RunKeepsInv | src/gows/status_ack_writer.go:116-170 | the same over every run and every choice select makes; what was enqueued or flushed stays so, in place |
| StatusAckWriter.ShutdownFlushesEverything | src/gows/status_ack_writer.go:106-159 | once done closes, everything enqueued before stopping closed has been passed on exactly once and in order, whatever select chose |
| StatusAckWriter.LateRecordMayBeLost | src/gows/status_ack_writer.go:146-159 | a run in which a record accepted between stopping and done is never flushed, because drain had already found the queue empty |
| StatusAckWriter.EverythingFlushedIff | src/gows/status_ack_writer.go:146-159 | in every finished run the flushed batches are exactly what was enqueued before drain found the queue empty, so everything enqueued is flushed if and only if nothing is offered after that step |
| StatusAckWriter.CutoffWork | src/gows/status_ack_writer.go:146-170 | from that step on, what is flushed and what is in the batch stay all that had been enqueued, and each later record stays in the queue |
| StatusAckWriter.EndToEnd | src/gows/status_ack_writer.go:73-170 | from an empty table, when no write fails and no prune tick finds anything to delete, the viewers in the table after shutdown are exactly those recorded before drain found the queue empty, each a person without device, at every ack level |
| StatusAckWriter.SummaryAfterShutdown | src/storage/sqlstorage/status_acks.go:110-137 | the two numbers of the summary after shutdown are those of the distinct viewers recorded in time, and, from receipts: received counts the persons with a delivery, read, self-read or play receipt naming the message, read those with one of the last three |
| StatusAckWriter.RecordedPersons | src/gows/status_ack_writer.go:216-225 | the same for the records of any receipts: a person counts at a level exactly when a receipt of a kind that reaches it names the message |
| StatusAckWriter.TickHandsOver | src/gows/status_ack_writer.go:132-137 | a tick, and the last flush, hand the whole batch over, once, and take nothing from the queue |
| StatusAckWriter.ReceiveTakesFirst | src/gows/status_ack_writer.go:127-131 | a receive takes the first record and hands the batch over exactly when it then holds 500 |
| StatusAckWriter.HandOverWrites | src/gows/status_ack_writer.go:162-170 | a batch handed over raises each ack to what it says, or leaves the table when the write fails |
| StatusAckWriter.StatusAckWriter.Stop | src/gows/status_ack_writer.go:108-114 | closes stopping once, whoever calls it again, and returns only when done is closed, with everything enqueued before stopping closed flushed, whatever the others do meanwhile |
| StatusAckWriter.StatusAckWriter.Flush | src/gows/status_ack_writer.go:162-170 | hands a non-empty batch over exactly once and empties it; the table gets the whole batch or, if the write fails, nothing |
| StatusAckWriter.StatusAckWriter.Turn | src/gows/status_ack_writer.go:125-144 | for each ready case of the select and each outcome of its statements, the turn is exactly that step of the protocol and keeps its invariant |
| StatusAckWriter.StatusAckWriter.Drain | src/gows/status_ack_writer.go:146-159 | with any records offered before its selects and after it found the queue empty, the drain loop is a run of receives, the finding and a last flush with the given write outcomes; it ends done with all that was enqueued by then handed over, and the queue is empty if and only if nothing came later |
| StatusAckWriter.RowLostIff | src/gows/status_ack_writer.go:189-212 | a row disappears in a step if and only if that step is a prune tick whose deletion finds it, after its flush, too old or the account's own; while it stays its ack does not fall |
| StatusAckWriter.StatusAckWriter.DeleteSelfViews | src/gows/status_ack_writer.go:189-206 | own views go until that has succeeded once for a paired session, and never after |
| LastMessages.CanonicalIsCaseIff | src/storage/sqlstorage/message.go:383-411 | the Go lookup and the CASE expression give one key if and only if a mapped @lid has no device and a number |
| LastMessages.CanonicalMeaning | src/storage/sqlstorage/message.go:383-411 | only a mapped @lid with a number changes, to that number with its device |
| LastMessages.ChatFilterExactIff | src/storage/sqlstorage/message.go:40-57 | the address list of the merged chat filter selects exactly the target's chat if and only if no other @lid maps to its user part or it is a phone address without device |
| LastMessages.SelectionExactIff | src/storage/sqlstorage/message.go:215-257 | the filters of the two queries select exactly the listed chats' rows if and only if each listed chat meets a condition on it, the list and the map |
| LastMessages.PhoneFilterSelectsExactly | src/storage/sqlstorage/message.go:215-257 | a list whose chats are phone numbers without device selects exactly the rows of those chats, with the empty list selecting all |
| LastMessages.UnmappedLidFilterFindsNothing | src/storage/sqlstorage/message.go:220-231 | a filter on an @lid unknown to the map selects no row, though rows of that chat were asked for |
| LastMessages.MergeIsLatest | src/storage/sqlstorage/message.go:333-351 | per chat the merge keeps the later of the two lists' messages, the primary one on a tie |
| LastMessages.MergeRefinesGroupBy | src/storage/sqlstorage/message.go:212-257 | the two queries and the merge return exactly one message per chat in range: the latest over its phone and all its @lid rows, non-@lid first on a tie, for every table whose columns match its messages |
| LastMessages.GroupByMeaning | src/storage/sqlstorage/message.go:285-331 | what that result is in terms of the rows: only stored real messages of asked chats, one for each such chat, none of them later, and none as late and no @lid before an @lid |
| LastMessages.InStepMergeRefinesGroupBy | src/storage/sqlstorage/message.go:212-257 | the same for every table whose fetched messages name their own chats |
| LastMessages.MergeIsCaseGroupByIff | src/storage/sqlstorage/message.go:469-483 | that result is the result of the single query grouped by the CASE expression if and only if the two keys agree on every row in range |
| LastMessages.MovedMessageIsLost | src/storage/sqlstorage/message.go:335-339 | a history that moves a message to another chat, after which the merge drops the newer message |
| LastMessages.HistoryMergesExactly | src/storage/sqlstorage/message.go:212-257 | after any history from an empty table in which no message changes its chat, the merge is the grouped query |
| LastMessages.OneChatMergesExactlyIff | src/storage/sqlstorage/message.go:335-351 | with a filter on one phone number the merge is the grouped query if and only if each fetched message names the chat it was found under |
| LastMessages.HiddenMoveIsHarmless | src/storage/sqlstorage/message.go:335-351 | with several chats in range that is not necessary: a history that moves a message and yet gives the grouped query's result |
| LastMessages.SqlMessageStore.FetchDistinctLatest | src/storage/sqlstorage/message.go:285-331 | one latest real message for each raw address on the wanted side of the @lid split and in the filter |
| LastMessages.SqlMessageStore.MergeLastMessages | src/storage/sqlstorage/message.go:335-351 | the map loops list each merged chat once, in any order |
| LastMessages.SqlMessageStore.SortByTime | src/storage/sqlstorage/message.go:260-265 | the same messages, by time in the asked direction, ascending unless descending is asked for |
| LastMessages.SqlMessageStore.GetLastMessagesInChatsWithMerge | src/storage/sqlstorage/message.go:212-280 | the page holds, position by position, the messages from the offset on that the limit allows, of the grouped query's result sorted by time in the asked direction |
| LastMessages.PagesCoverAll | src/storage/sqlstorage/message.go:268-279 | consecutive pages of any positive size concatenate to the whole sorted result, each chat once |
| MessageTable.UpsertKeepsConsistentIff | src/storage/sqlstorage/tables.go:13-39 | an upsert keeps the jid column in step with the message if and only if it does not move a stored message to another chat |
| MessageTable.HistoryKeepsConsistent | src/storage/sqlstorage/tables.go:13-39 | over any history in which no message changes its chat, the jid columns stay in step with the messages |
| MessageTable.RealContentSurvives | src/storage/sqlstorage/tables.go:31-38 | after any sequence of upserts an id holds its last real message if any was real, otherwise its last one |
| MessageTable.MessageStore.UpsertOneMessage | src/storage/sqlstorage/entity.go:80-104 | one guarded upsert: insert, replace all but the jid column, or leave the row |
| MessageTable.HighestMeaning | src/gows/storage_event_handler.go:366-391 | the resulting status is the maximum of the first one and the received levels, and is one of them |
| MessageTable.StatusMeaning | src/gows/storage_event_handler.go:357-400 | the status ends at 5 once played, else 4 once read, else 3 once delivered, unless it was higher |
| MessageTable.MessageStore.HandleReceipt | src/gows/storage_event_handler.go:357-400 | one receipt raises the named stored messages to its level, lowers none and changes nothing else |
| MessageTable.MessageStore.HandleReceipts | src/gows/storage_event_handler.go:357-400 | over any series of receipts each status ends at the highest level received or its first value, real and non-real messages alike |
| MediaRetry.StepKeepsInv | src/gows/media.go:168-217 | every single operation of any caller or handler keeps the protocol's invariant |
| MediaRetry.RunKeepsInv | src/gows/media.go:168-217 | the same over every interleaving |
| MediaRetry.OneLeaderPerMessage | src/gows/media.go:179-203 | at any moment a message has at most one live leader and the waiter entry is its own |
| MediaRetry.CallersAreServedCorrectly | src/gows/media.go:168-217 | a caller sends at most one receipt, only as leader, and an event it returns carries its message id |
| MediaRetry.DeleteRemovesOwnEntry | src/gows/media.go:203 | the deferred delete, whenever it runs, removes the leader's own waiter entry and no other |
| MediaRetry.NoLostHandOff | src/gows/gows.go:111-122 | after a handler that loaded a leader's channel tried its send, the slot is full or the leader has its answer or has left |
| MediaRetry.ChannelsHoldAtMostOne | src/gows/media.go:182 | a waiter channel never holds more than one event |
| MediaRetry.CachedEventAnswersLaterCallers | src/gows/media.go:173-177 | while an event stays cached, every later caller of its message is answered with an event without registering or asking the phone |
| MediaRetry.LeaderMayMissCachedEvent | src/gows/media.go:173-216 | a run in which a leader times out although its message's event is cached |
| MediaRetry.LeaderServedIff | src/gows/media.go:203-216 | in every interleaving a leader that is sending or waiting has an event if and only if some handler of its message looked for a waiter after the leader had registered, and has tried its send |
| MediaRetry.FindsLeaderIff | src/gows/gows.go:116-117 | a handler's load found the leader's entry if and only if it came after the leader's registration |
| MediaRetry.LeaderHasEventIff | src/gows/gows.go:117-121 | such a leader's channel holds an event if and only if a handler that found its entry has tried its send |
| MediaRetry.LookAnswersIff | src/gows/media.go:173-196 | in every interleaving a first look, and a poll tick, answers the caller with the cached event of its message if and only if there is one |
| MediaRetry.FollowersTimeOutInVain | src/gows/media.go:191-198 | in every interleaving a follower that timed out found no event of its message at any of its ticks |
| MediaRetry.ReceiptIsAwaitedIff | src/gows/media.go:205-216 | a leader sends its one receipt and waits if and only if it went out |
| MediaRetry.ReceiveTakesEvent | src/gows/media.go:211-213 | a waiting leader takes the event in its channel, leaves it empty and leaves with that event |
| MediaRetry.LeavingReturnsResult | src/gows/media.go:203-216 | the deferred delete does not change the result |
| MediaRetry.ReturnedEventCame | src/gows/media.go:168-217 | in every interleaving a returned event is one that some handler was given |
| MediaRetry.CacheHoldsLast | src/gows/gows.go:113-115 | the cache holds, for each message, the event that a handler set last and nobody has evicted since |
| MediaRetry.GoWS.RequestAndWaitForMediaRetry | src/gows/media.go:168-217 | whatever others do between its steps, its own steps are those of the source in order, the deferred delete included; it returns only an event of its message that some handler was given; a leader gives up early only on an empty channel, and a follower times out only if none of its ticks found an event of its message cached |
| MediaRetry.GoWS.PollForEvent | src/gows/media.go:185-201 | a follower looks at the cache on each tick and gives up only after the last one |
| MediaRetry.GoWS.LeadRetry | src/gows/media.go:203-216 | a leader sends one receipt, waits if that worked, and removes its entry on every way out |
| MediaRetry.GoWS.AwaitEvent | src/gows/media.go:211-216 | the select takes the event if one is there in time and times out otherwise |
| MediaRetry.GoWS.LoadOrStoreWaiter | src/gows/media.go:182-183 | exactly one of loading another's entry and storing the own one, with a fresh channel |
| MediaRetry.GoWS.ReissueMediaRetry | src/gows/gows.go:111-122 | whatever others do between, a handler caches, loads and tries to send, in this order; the waiter it found then has an event in its slot or no longer needs one |
| EventFanout.EveryListenerIsFaithful | src/server/events.go:139-193 | over every run: taken then buffered events are the accepted ones in order; accepted and dropped ones are the non-excluded events sent while registered; the counter is the current run of drops; poisoned exactly when a run reached the limit |
| EventFanout.DroppedIffFull | src/server/events.go:149-155 | over every run a wanted event is dropped if and only if exactly as many accepted events as the buffer holds had not been read, a number that follows from the actions by counting |
| EventFanout.ReadTakesNext | src/server/events.go:110-117 | over every run a read takes the first accepted event not read yet, if there is one, and nothing else |
| EventFanout.TrailingDropsMeaning | src/server/events.go:150-155 | the counter is at least n exactly when the last n offers were all dropped |
| EventFanout.OthersDoNotMatter | src/server/events.go:143-163 | a listener's state depends only on its session's sends and its own reads and registration |
| EventFanout.ExcludedNeverArrives | src/server/events.go:57-63 | over every run no event of an excluded type is read or buffered, and every other one sent to the session while registered was offered |
| EventFanout.EventListener.Accept | src/server/events.go:145-162 | one offer: skipped, buffered exactly when there is room and with the counter reset, or dropped and counted, poisoning at the limit |
| EventFanout.EventListener.Next | src/server/events.go:99-136 | one turn of the reader: each way out has its cause, an event is taken from the front, and one that cannot be marshalled is skipped |
| EventFanout.Server.SendEventToAllListeners | src/server/events.go:139-164 | every listener of the session and no other gets the offer once |
| EventFanout.Server.AddListener | src/server/events.go:166-178 | a fresh listener is registered and all others are untouched |
| EventFanout.Server.RemoveListener | src/server/events.go:180-193 | the channel is closed and the listener forgotten, its session with the last one; unknown ids change nothing |
| GroupUpdates.ParticipantsMap.Join | src/storage/helpers/participants.go:33-45 | unknown addresses are added once each with default flags, in first-seen order |
| GroupUpdates.ParticipantsMap.Leave | src/storage/helpers/participants.go:47-54 | exactly the given addresses are gone |
| GroupUpdates.ParticipantsMap.Promote | src/storage/helpers/participants.go:56-64 | the given members and no others become plain admins |
| GroupUpdates.ParticipantsMap.Demote | src/storage/helpers/participants.go:66-74 | the given members and no others lose both flags |
| GroupUpdates.ParticipantsMap.Participants | src/storage/helpers/participants.go:76-98 | the remaining originals, then the remaining joiners, each in their order |
| GroupUpdates.ChangedOrder | src/storage/helpers/groups.go:57-62 | an update lists the staying originals in old order, then the staying joiners in first-seen order |
| GroupUpdates.FirstSeenOrder | src/storage/helpers/participants.go:34-45 | joiners stand in the order of their first appearance |
| GroupUpdates.UpdateIsExact | src/storage/helpers/groups.go:49-65 | from a list without duplicates the result has none and its members are (original or joined) and not left |
| GroupUpdates.UpdateKeepsOrder | src/storage/helpers/participants.go:76-98 | in the list after an update no joiner stands before an original, originals keep their order and joiners stand as first named |
| GroupUpdates.UpdateFlagsAreExact | src/storage/helpers/groups.go:57-61 | demotion over promotion over the original flags; an untouched member keeps all its fields and an untouched joiner has neither flag |
| GroupUpdates.LeaveThenJoinDuplicatesIff | src/storage/helpers/participants.go:33-54 | with the calls in the other order, a duplicate appears if and only if an original member both leaves and joins |
| GroupUpdates.UpdateGroupParams | src/storage/helpers/groups.go:21-41 | each given parameter is replaced and every other field kept |
| GroupUpdates.ParamsMeaning | src/storage/helpers/groups.go:21-41 | each field after the parameters of an update, one by one |
| GroupUpdates.UpdatedMeaning | src/storage/helpers/groups.go:9-19 | an update that applies changes participants and version as well, unless it names nobody |
| GroupUpdates.UpdateGroupParticipants | src/storage/helpers/groups.go:49-65 | a change that names anybody applies as a whole if and only if its previous version is the group's, and not at all otherwise |
| GroupUpdates.UpdateGroupInfo | src/storage/helpers/groups.go:9-19 | succeeds if and only if the previous version is the group's or no participant is named; on a mismatch the parameters were already changed in memory and nothing else was |
| GroupCache.RefreshIsExact | src/gows/storage_groups_cache.go:81-137 | when every storage call of a refresh of distinct groups worked, the stored groups are the fetched ones; a setting exists exactly for ephemeral groups and those with an earlier setting dated now or later; other chats keep theirs |
| GroupCache.RefreshUnderFailures | src/gows/storage_groups_cache.go:81-116 | what a completed refresh leaves of each group and setting, whatever setting writes and deletions failed on the way |
| GroupCache.EmptyAnswerRemovesAllIff | src/gows/storage_groups_cache.go:101-113 | a refresh answered with an empty list leaves no group if and only if each deletion works |
| GroupCache.UpdatesFormAChain | src/gows/storage_groups_cache.go:52-79 | over any series of updates the stored participants are the fold of exactly those that matched, whose versions form a chain from the first to the stored version |
| GroupCache.UpdateAppliedIff | src/storage/helpers/groups.go:53-64 | over any series: an update that names participants is applied if and only if its previous version is that of the last applied one, or the first version; otherwise the stored group stays as it is |
| GroupCache.UpdatesKeepMembersDistinct | src/storage/helpers/groups.go:49-65 | no series of updates introduces a duplicate member |
| GroupCache.GroupCacheStorage.FetchGroupsUnlocked | src/gows/storage_groups_cache.go:81-116 | succeeds if and only if the answer, the listing and each upsert do; on success the fetched groups are stored and exactly the stale ones whose deletion works are gone, and the refresh time moves unless the answer is empty; on error no stored group is gone, the time stays, and exactly the groups before the failed one are written |
| GroupCache.GroupCacheStorage.RemoveStale | src/gows/storage_groups_cache.go:101-109 | exactly the stale groups, and settings, whose deletion works are gone; a failure stops nothing |
| GroupCache.GroupCacheStorage.UpsertOneGroup | src/gows/storage_groups_cache.go:130-137 | the group is stored if and only if that write works, and its setting likewise, each whatever becomes of the other |
| GroupCache.GroupCacheStorage.DeleteGroup | src/gows/storage_groups_cache.go:155-161 | the group goes if and only if that write works, and its setting likewise, each whatever becomes of the other |
| GroupCache.GroupCacheStorage.UpdateGroup | src/gows/storage_groups_cache.go:52-79 | more than 24 hours after the last refresh the update is swallowed by one; otherwise an unreadable, unknown or mismatched group persists nothing and the updated group is stored if the write works, and its setting follows when the update carries one |
| GroupCache.GroupCacheStorage.UpdateChatEphemeralSetting | src/storage/sqlstorage/chat_ephemeral_setting.go:32-38 | an ephemeral group's setting is stored, any other's is deleted as of now |
| GroupCache.GroupCacheStorage.DeleteChatEphemeralSetting | src/storage/sqlstorage/chat_ephemeral_setting.go:40-61 | a setting without time or older than the deletion goes, a newer one stays |
| StatusBroadcast.Pow3 | src/gows/status.go:228-235 | the loop yields the power of three as 64-bit multiplication gives it, 1 for a negative exponent |
| StatusBroadcast.NoWaitOverflowsIff | src/gows/status.go:203 | no wait of a batch overflows 64 bits if and only if the last one does not |
| StatusBroadcast.DefaultWaitsDoNotOverflow | src/gows/status.go:33-34 | with a base of at most five seconds no wait overflows for up to 20 retries; at five seconds the 21st does |
| StatusBroadcast.WaitsAddUp | src/gows/status.go:202-203 | twice the waits before attempt k add up to base times (3^k - 1) |
| StatusBroadcast.SendStatusBatchWithRetry | src/gows/status.go:190-226 | succeeds if and only if some attempt within the retries is reached and delivers; at most maxRetries + 1 sends; stops at the first permanent error or cancelled wait; the waits triple, and add up exactly as long as the last one does not overflow |
| StatusBroadcast.ReachesMeaning | src/gows/status.go:199-224 | an attempt is reached if and only if all before it failed transiently and no wait up to it was cancelled |
| StatusBroadcast.Chunk | src/gows/status.go:99 | consecutive non-empty pieces of the given size, the last possibly shorter, that concatenate to the list |
| StatusBroadcast.SendStatusMessage | src/gows/status.go:67-185 | the batches cut the phone-server participants; it is interrupted if and only if the pause before a later batch is cancelled, at the first such batch; otherwise delivered and failed batches partition 1..n and their participants, and it fails if and only if there are batches and none was delivered |
| StatusBroadcast.ReversedAt | src/gows/status.go:77-78 | a fetched audience is taken from its end |
| StatusBroadcast.PhoneOnlyMeaning | src/gows/status.go:81-84 | the filter keeps phone-server addresses, in place, and drops the others |
| MemberLabels.LastWriteWins | src/storage/sqlstorage/tables.go:105-124 | each row holds the greatest timestamp ever applied to it, the last applied on a tie |
| MemberLabels.WritesConverge | src/storage/sqlstorage/tables.go:118-123 | without ties between different writes, the same writes in any order and repetition leave the same table and reads |
| MemberLabels.TwoWritesCommuteIff | src/storage/sqlstorage/tables.go:122-123 | two writes commute if and only if they do not tie on a row that is not newer still |
| MemberLabels.RemovedTagStaysRemoved | src/storage/sqlstorage/group_member_labels.go:46-81 | older writes never bring a removed tag back into view |
| MemberLabels.SqlGroupMemberLabelStore.UpsertMany | src/storage/sqlstorage/entity.go:85-104 | all rows in one statement or none; it goes through if and only if the database works and, on PostgreSQL, no row comes again that an earlier one of the statement has written |
| MemberLabels.ClashesMeaning | src/storage/sqlstorage/entity.go:85-104 | PostgreSQL refuses exactly when an earlier label of a row in the statement takes effect and the row is named again |
| MemberLabels.SqlGroupMemberLabelStore.UpsertGroupMemberLabel | src/storage/sqlstorage/group_member_labels.go:28-33 | an empty member is an error and writes nothing; otherwise the tag is upserted if the write works |
| MemberLabels.SqlGroupMemberLabelStore.UpsertGroupMemberLabels | src/storage/sqlstorage/group_member_labels.go:35-44 | labels without member are skipped, the others written in order |
| MemberLabels.WithMemberMeaning | src/storage/sqlstorage/group_member_labels.go:35-44 | exactly the labels without member are left out, and each row gets the others in their order |
| MemberLabels.SqlGroupMemberLabelStore.GetGroupMemberLabels | src/storage/sqlstorage/group_member_labels.go:46-63 | exactly the group's visible tags, each once |
| MemberLabels.SqlGroupMemberLabelStore.GetGroupMemberLabel | src/storage/sqlstorage/group_member_labels.go:65-81 | a tombstone or a missing row reads as no tag |

## Left out

- whatsmeow, gRPC, protobuf and SQL text: sends, fetches and statements are parameters or maps with stated semantics.
- JID parsing: an address that does not parse is carried as its text; a parsed one has user, device and server but no agent.
- LIKE patterns: the device, self-view and @lid patterns are modelled on addresses, so wildcard characters inside a user part and case folding are not captured.
- Sub-millisecond times: update times are integers, so the truncation to milliseconds on write is not captured.
- The writer's start-up: its initial prune, merge and self-view cleanup run before the loop and are modelled as store operations only; a write that fails for one statement of several is modelled in the store, not in the writer, whose batches fit one statement.
- A second reader of a removed listener: the reader removes itself, so draining a closed channel is modelled for one turn only, not over runs.
- A nil event in the fan-out: every event has a type name.
- ParticipantsMap's pointers into the original slice: entries are values, so the in-place change of the caller's old slice, which is then dropped, is not captured.
- Elapsed time in a refresh: one value of the clock serves a whole refresh.
- retry-go around UpdateGroup and GetMessage: a retried call is another call.
- Concurrent receipts on one message: handlers run in separate goroutines without a lock, so the status results are for receipts handled one at a time.
- The other filters of GetAllMessages, the unmerged last-message query, contacts, newsletters, labels, polls, edits and profile calls: each claim there is settled by one or two branches.
- Ephemeral settings written from messages and history: they belong to chats outside the group cache.
- Environment parsing in the status broadcast: sizes, retries and waits are parameters, and the conversion of seconds to nanoseconds is taken as given.
- StatusAckStore.SqlStatusAckStore.ListSummary: an @lid viewer that still carries a device joins nothing, because the map holds no such user.
