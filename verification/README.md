# Store-and-forward relay: verified model

ToxRelayer carries numbered telegrams between relays over a transport that loses, repeats and
reorders messages. This project models the parts that have to get this right and proves what
they promise:

- **Receive sequence** (`Serials`, `SnTracking`, `TrackerSimulation`, `ReceiveRuns`,
  `Verdicts`, `MissingRange`). Serials are cyclic, 1 to 999. A tracker classifies each arrival and keeps the
  serials it asked for. It is proved against a tracker over unbounded serials, and over whole
  runs every telegram is stored once, outstanding, or given up.
- **Relay** (`RelayPolicy`, `RelayModel`, `Relay`, `Forwarding`, `Requests`, `Replay`, `Recovery`,
  `RelayRuns`, `MsgDatabase`). Telegrams for others are passed on. A gap is requested, answered from the peer's archive and closed by the replayed telegrams, proved end
  to end through codec, archive, queue and tracker.
- **Delivery queue** (`MqModel`, `MqInvariant`, `MqOrder`, `MqList`, `MqFifo`, `MqRuns`,
  `MqArrival`, `MqDelivery`, `MqProgress`, `MsgQueues`). A ring with holes, acknowledgements out of order,
  timeouts and an attempt budget, against a transport that may answer anything.
- **Durable mirror** (`MqImage`, `MqImport`, `MqDisk`, `MqPersist`, `MqRestore`, `MqMirror`,
  `MqMirrorLoop`). The queue's file: printer, parser, atomic replacement, and the dirty flag,
  under failures of any step and crashes between any two.
- **Wire codec** (`TgNumbers`, `TgLines`, `Telegram`, `TgRoundTrip`, `TgReference`, `TgFraming`,
  `TgCodec`). The line-framed text format, read in two ways that agree, under its three line
  ends, and exactly which telegrams survive it.
- **Settings file** (`IniValue`, `IniLines`, `IniNames`, `IniEdit`, `IniSettings`, `IniParts`,
  `IniStore`, `IniBuffer`, `IniFile`, `IniUpdate`). Quoting and comment scanning, names without
  case, the copy through a cache that is reread, and the file as a map from names to values.

Code that updates state in place is a class or a method over arrays, proved equal to a
specification function; the properties are lemmas about those functions, and the lemmas that
end in `Exactly` or `Is` say in bytes and numbers what the functions give. Time, the transport's
answers, disk failures, and what the environment knows of a channel are parameters. Some fields
are history, read by no operation: `stamp` of an entry, `trace` of the disk, `wanted` of a
builder, `noted` of the relay, and the records `History`, `Books`, `Ledger` and `System.held`.

Four promises of the documentation are stronger than the code; the code is followed:

- Visiting and delivery are called first-in first-out (src/msg_queue.h:154). A message can take a
  hole between older ones. `MqArrival.HoleBreaksFifo` is such a run, `MqFifo.AppendsIff` says exactly
  when a message goes to the end.
- Every accepted telegram is said to decode to itself (src/telegram.c:200-202). Bodies with CR and
  over-long lines do not: `TgRoundTrip.CrIsLost` and `TgRoundTrip.LongLineIsLost` are such telegrams,
  `TgRoundTrip.SurvivesIffSafe` is the exact condition.
- Every telegram is to be stored once, outstanding in the tracker, or given up. A serial that stays
  outstanding for a whole lap is mistaken for a new one (src/telegram.c:540), and this fails:
  `ReceiveRuns.LapStoresTwice` is a run that stores a telegram twice. Within half a lap,
  `ReceiveRuns.ConsistentStepIff` is the exact condition for one arrival, `ReceiveRuns.ExactlyOnceIff`
  for a run, and `ReceiveRuns.StoredTwiceIff` says when an arrival is stored a second time.
- Restored messages are to be appended to what the queue holds (src/mq_persist.h:61). They can take
  holes. `MqRestore.LoadScatters` is such a load, `MqRestore.LoadAppendsIff` the exact condition.

`dafny verify dfyconfig.toml` checks the whole project.

## Model

| member | source | states |
|---|---|---|
| Serials.Next | src/telegram.c:27-34 | the serial after any integer, valid or not, is a valid serial |
| Serials.Prev | src/telegram.c:36-43 | the serial before any integer is valid, and stepping forward undoes stepping back |
| Serials.Distance | src/telegram.c:45-54 | with C's truncating remainder the result lies in 0..998 and is congruent to the difference, for every pair of integers |
| Serials.DistanceIsLeastSteps | src/telegram.c:45-54 | the distance between two serials is the least number of forward steps from the one to the other |
| Serials.WrapSteps | src/telegram.c:27-34 | n steps of the cyclic successor are unbounded addition of n, seen modulo the wrap |
| SnTracking.SnTracker.constructor | src/telegram.c:455-464 | a new tracker expects the given serial (1 if invalid), is unsynchronised and has nothing outstanding |
| SnTracking.SnTracker.Init | src/telegram.c:455-464 | re-initialisation puts the tracker into that same state |
| SnTracking.SnTracker.Resume | src/telegram.c:466-479 | resuming after a valid serial expects its successor at once; after an invalid one it starts afresh |
| SnTracking.SnTracker.PendingTake | src/telegram.c:484-494 | the first occurrence of the serial leaves the outstanding set, its place taken by the last entry; absent serials change nothing |
| SnTracking.SnTracker.PendingAddRange | src/telegram.c:499-520 | the serials of a cyclic range are appended in order; the result is true exactly when all of them fit into 256 places, and otherwise as many stay as there was room for |
| SnTracking.SnTracker.AcceptSerial | src/telegram.c:522-583 | verdict, missing range, expected serial, synchronisation and outstanding set after an arrival, all five verdicts and the invalid serial included |
| Verdicts.AcceptExactly | src/telegram.c:522-583 | every verdict in plain arithmetic on 1..999, with the limits 64, 256 and 499 steps: when each is given, the range reported, and the expected serial and outstanding set left |
| Verdicts.SerialsGoRound | src/telegram.c:22-43 | valid serials are 1 to 999 and go round from 999 to 1 |
| Verdicts.StartsExactly | src/telegram.c:455-479 | a fresh and a resumed tracker, field by field |
| TrackerSimulation.Simulates | src/telegram.c:522-583 | step for step the 1..999 tracker does what a tracker over unbounded serials does: same verdict, same missing range, same outstanding set modulo wrap, as long as arrivals stay within half a lap and none is mistaken for an outstanding one |
| TrackerSimulation.StepIsRightIff | src/telegram.c:522-583 | exactly when a step is right: an arrival within half a lap of the expected serial is classified as the unbounded tracker would, and the tracker goes on standing for it, if and only if no outstanding serial of another lap looks like the arrival (unless the arrival is itself outstanding) |
| TrackerSimulation.DistinctKeptIff | src/telegram.c:499-577 | the outstanding set stays free of repeats exactly when no gap includes the wire serial of one still outstanding |
| ReceiveRuns.ConsistentStepIff | src/relay.c:47-90 | exactly when one arrival within half a lap keeps the books (every true serial since the first stored once, outstanding, or given up, and in one of these states only; tracker and unbounded tracker agreeing): if and only if it is not mistaken for an outstanding one |
| ReceiveRuns.ExactlyOnce | src/relay.c:47-90 | the same over every run of lost, repeated and reordered arrivals within half a lap of which none is mistaken: no telegram is stored twice and none vanishes unaccounted, however long serials stay outstanding |
| ReceiveRuns.ExactlyOnceIff | src/relay.c:47-90 | over every run within half a lap the books are right after every arrival if and only if no arrival is mistaken |
| ReceiveRuns.StoredTwiceIff | src/relay.c:47-68 | exactly when an arrival within half a lap is stored a second time: if and only if it is mistaken and was stored before |
| ReceiveRuns.WindowSuffices | src/telegram.c:522-583 | keeping every outstanding serial within half a lap is enough for that |
| ReceiveRuns.StartConsistent | src/telegram.c:455-479 | the accounting may start from an initialised tracker and from a resumed one |
| ReceiveRuns.LapStoresTwice | src/telegram.c:540-541 | a mistaken arrival breaks the promise: a run from a new tracker in which serial 2 is lost for a whole lap stores telegram 1001 twice |
| MissingRange.MissingRangesAgree | src/telegram.c:499-577 | whenever a gap is reported, the serials put into the outstanding set, the cyclic interval of the request and the plain or wrapped SQL predicate are the same set, of exactly the arrival's distance many members and never more than a replay may answer |
| MissingRange.LimitNeverCuts | src/msg_database.c:323-383 | the LIMIT of the range query never cuts an answer that has one row per serial |
| Relay.RelayEnv.PostRecord | src/relay.c:36-43 | a record enters the delivery queue, or the refusal is reported |
| Relay.RelayEnv.SendGapRequest | src/relay.c:19-44 | the queue receives exactly the encoded request for the missing range, addressed to the peer; a missing callback, an unknown peer and a refusal are reported as the code does |
| Relay.RelayEnv.DeliverText | src/relay.c:47-90 | a telegram for us moves the tracker; unless it is a duplicate it is archived and its serial noted, as far as these callbacks are there; and a replay is asked for when it reveals a gap |
| Relay.RelayEnv.SendArchived | src/relay.c:145-161 | an archived row is re-encoded for the peer and enqueued; rows that cannot be encoded are skipped |
| Relay.RelayEnv.ServeRequest | src/relay.c:122-164 | the rows of the requested range, at most 64, are re-sent oldest first, and the result tells whether any was enqueued; missing callbacks and unknown peers included |
| Relay.RelayEnv.ReceiveRecord | src/relay.c:166-193 | a raw record is decoded and delivered, forwarded, answered from the archive or discarded, with the whole effect on tracker, archive and queue |
| Forwarding.ForwardsExactly | src/relay.c:93-119 | a telegram for somebody else leaves tracker, archive and notes alone; it is relayed if and only if its receiver is found and the queue can take it, and then one message is added, for the channel the receiver is found at: the record as it came between relays, else the body |
| Forwarding.ForwardedArrives | src/relay.c:93-193 | what is passed on between relays is the record itself, and the relay it is addressed to delivers the very telegram |
| Forwarding.DeliversExactly | src/relay.c:47-90 | a telegram for this relay: the row that is filed and when, the serial that is noted, and the outcome for every verdict |
| Forwarding.LeavesTheRest | src/relay.c:166-193 | what is no record, comes from no channel or asks somebody else changes nothing; a request to this relay changes the queue only |
| Requests.AsksExactly | src/relay.c:19-44 | a range is asked for if and only if the peer's key is known and the queue can take the request, which is then the one message that is added |
| Requests.ServesWhatFits | src/relay.c:145-161 | for every list of rows and every fill of the queue: rows that cannot be written are passed over, of the rest exactly those that fit are enqueued in order, and the others are counted refusals |
| Requests.ServesExactly | src/relay.c:122-164 | a request of any range, to any archive and queue: which telegrams are enqueued, and that it counts as served if and only if there was one |
| Replay.WireFits | src/relay.c:25-43 | every telegram the relay can build for valid keys fits its wire buffer and the queue's payload limit |
| Replay.GapIsRequested | src/relay.c:19-90 | a telegram that reveals a gap leaves the tracker as the verdict says and puts exactly the request for the gap into the queue |
| Replay.RequestIsServed | src/relay.c:122-193 | a received request is decoded and answered by enqueueing the selected rows, the 64 oldest of them, re-encoded, in archive order |
| Recovery.RepliesTake | src/relay.c:47-90 | what any sequence of replies does, repeated and stale ones included: each is taken if its serial is still outstanding and refused as a duplicate otherwise; outstanding set, archive and outcomes exactly |
| Recovery.RecoversEach | src/relay.c:47-90 | replies whose serials are all outstanding, in any order and at any time, each arrive as recovered; the outstanding set loses exactly their serials and nothing else of the tracker changes |
| Recovery.AskedAndServed | src/relay.c:19-193 | a telegram that reveals a gap makes the relay ask for exactly the missing range, and the peer answer with the oldest rows of that range it has |
| Recovery.ReplayClosesGap | src/relay.c:19-164 | end to end: with one archived row per missing serial, gap, request, replay and re-delivery in any order leave outstanding exactly what was outstanding before the gap, with the expected serial unmoved and the rows stored |
| Recovery.ReplayRestoresIff | src/relay.c:47-90 | with any number of archived rows per serial, and replies lost, repeated or reordered as long as each serial arrives: the gap is closed, and what is stored is what was lost if and only if of each serial the lost row arrives first |
| Recovery.OldRowWins | src/msg_database.c:54-62 | an archive with a row of an earlier lap: both rows are answered, the older is stored as the lost telegram and the lost one is refused |
| RelayRuns.HappenAllHolds | src/relay.c:47-90 | over every run of deliveries, interleaved with arbitrary other writes to the table and changes of the queue, the relay's tracker and archive are those of the accounting and its log of writes |
| RelayRuns.TableContents | src/msg_database.c:39-42 | after any writes the table holds, for every timestamp, the last row written with it, and where none was written what was there |
| RelayRuns.LastAtIff | src/msg_database.c:28-42 | the last row with a timestamp is the row of a write after which no channel and no direction writes that timestamp again |
| RelayRuns.ArchiveHoldsEachOnce | src/relay.c:47-90 | exactly-once accounting and the shared archive together: every telegram is written once, outstanding or given up, and a written telegram's row is in the archive if and only if it is the last one with its timestamp |
| MsgDatabase.UpsertContents | src/msg_database.c:39-42 | after INSERT OR REPLACE the table holds the new row and every row with another timestamp, in the order of the key |
| MsgDatabase.Select | src/msg_database.c:54-62 | the range query returns exactly the rows of the channel and direction whose serial is in the plain or wrapped interval |
| MsgDatabase.Database.AddRow | src/msg_database.c:190-237 | an insertion clamps the serial, replaces a row with the same key, and reports a closed database and a negative channel |
| MsgDatabase.Database.QueryRange | src/msg_database.c:323-383 | stepping through the result set returns the first max selected rows, oldest first, with messages cut to their field; nothing on bad arguments |
| MsgDatabase.AddExactly | src/msg_database.c:190-237 | which insertions are refused and why, that these change nothing, and the row that is inserted, its serial brought into 0 to 999 |
| MsgDatabase.QueryExactly | src/msg_database.c:323-383 | the rows returned, by the comparisons on channel, direction and serial written out: the earliest of them, at most max, messages cut to 1023 bytes, and nothing for bad arguments |
| MsgDatabase.SelectSorted | src/msg_database.c:54-62 | the selected rows come in the order of their timestamps |
| MsgQueues.MsgQueue.constructor | src/msg_queue.c:163-186 | an initialised queue is empty and satisfies the counting invariants |
| MsgQueues.MsgQueue.ReleaseSlot | src/msg_queue.c:84-103 | a released slot leaves both counters right and its payload forgotten |
| MsgQueues.MsgQueue.Retire | src/msg_queue.c:106-119 | a retired message leaves its slot, is counted and reported to the drop hook with its number of attempts, and fires the change hook |
| MsgQueues.MsgQueue.FindFreeSlot | src/msg_queue.c:131-143 | the first free slot from tail on is found if there is one; otherwise tail stays |
| MsgQueues.MsgQueue.AdvanceHead | src/msg_queue.c:147-156 | head stops at the first stored message from where it was, or at tail when nothing is stored |
| MsgQueues.MsgQueue.ForEach | src/msg_queue.c:220-240 | every stored message is visited exactly once in scan order, although the walk stops as soon as it met count messages |
| MsgQueues.MsgQueue.EnqueueMessage | src/msg_queue.c:254-293 | the whole new state and the result of an enqueue: argument errors, a full ring, or the message in the first free slot |
| MsgQueues.MsgQueue.ConfirmMessage | src/msg_queue.c:295-317 | the whole new state and the result of an acknowledgement, matched or not |
| MsgQueues.MsgQueue.Transmit | src/msg_queue.c:366-389 | what the transport is given, and what each of its answers makes of a message: sent, retried later, or dropped when fatal or out of attempts |
| MsgQueues.MsgQueue.Inspect | src/msg_queue.c:334-389 | a slot is acted on exactly when its window has expired, an expired acknowledgement counting as one lost attempt |
| MsgQueues.MsgQueue.ServiceOnce | src/msg_queue.c:319-393 | the whole new state and outcome of a service call: the first eligible slot from head is acted on and no other |
| MqInvariant.FreshInv | src/msg_queue.c:163-186 | the invariants hold initially |
| MqInvariant.EnqueueInv | src/msg_queue.c:61-81 | an enqueue keeps I1-I4, the bounds on stored entries and enqueued = confirmed + dropped + count |
| MqInvariant.ConfirmInv | src/msg_queue.c:61-81 | so does an acknowledgement |
| MqInvariant.ServiceInv | src/msg_queue.c:61-81 | so does a service call, against any transport |
| MqInvariant.IdleChangesNothing | src/msg_queue.c:319-393 | an idle service call leaves the whole queue as it was |
| MqOrder.MessagesSize | src/msg_queue.c:61-81 | the list of stored messages is as long as the counter says |
| MqOrder.SettledOrder | src/msg_queue.c:147-156 | moving head past holes does not change the list of messages |
| MqList.ServiceRefines | src/msg_queue.c:319-393 | the ring refines a plain list: a service call acts on the first eligible message of the list and leaves every other message and their order alone |
| MqList.ConfirmRefines | src/msg_queue.c:295-317 | an acknowledgement removes one message it matches from the list; it is not found exactly when no stored message matches |
| MqList.IdleIffNoneEligible | src/msg_queue.c:319-393 | with a transport supplied a call is idle if and only if no stored message is eligible |
| MqDelivery.ServiceExactly | src/msg_queue.c:319-393 | a service call in plain numbers: idle if and only if no transport is supplied or nothing is due; otherwise the first message that is due is handed over unless its eight attempts are used up, is dropped if and only if they are or the answer is -1 or this was the eighth, stays in its place pending with one more attempt on any other refusal, and is in flight under the receipt on success |
| MqDelivery.DropIsReported | src/msg_queue.c:106-119 | whom and how many attempts the drop hook is told, and that fewer than eight are reported only for an answer of -1 |
| MqDelivery.OnlyFatalCutsShort | src/msg_queue.c:319-393 | over every run in which the transport never answers -1, every message that is given up was handed over eight times |
| MqDelivery.ConfirmExactly | src/msg_queue.c:295-317 | an acknowledgement is accepted if and only if a message in flight has its friend and its receipt, and then one such message leaves the list; the two errors exactly |
| MqDelivery.ConfirmsLowestSlot | src/msg_queue.c:301-314 | of several messages with that friend and receipt the one in the lowest slot is taken, and no other slot changes |
| MqDelivery.SentCanBeConfirmed | src/msg_queue.c:295-389 | after a call that sent, an acknowledgement by the friend the packet was handed over for, with the receipt the transport gave, is accepted |
| MqDelivery.EnqueueExactly | src/msg_queue.c:254-293 | which messages are accepted (friend not negative, 1 to 1371 bytes, room left), the two refusals, and that one message, pending and untried, is added while the others keep their order |
| MqFifo.FullIffAllOccupied | src/msg_queue.c:254-293 | a valid message is refused as full if and only if every slot holds a message |
| MqFifo.EnqueueInserts | src/msg_queue.c:131-143 | where an accepted message enters the list: between the messages before and after its slot |
| MqFifo.AppendsIff | src/msg_queue.c:131-156 | exactly when an enqueue is first-in first-out: if and only if no stored message lies between its slot and head |
| MqFifo.EnqueueContiguous | src/msg_queue.c:254-293 | a message that finds the tail slot free is appended, and everything stays between head and tail |
| MqFifo.ConfirmContiguous | src/msg_queue.c:295-317 | an acknowledgement, in whatever order it comes, keeps everything between head and tail |
| MqFifo.ServiceContiguous | src/msg_queue.c:319-393 | so does a service call that drops, retries or sends |
| MqArrival.RunFirstInFirstOut | src/msg_queue.c:254-393 | over every run in which each accepted message lands on the tail slot, everything lies between head and tail in order of acceptance, whatever holes confirmations and drops leave |
| MqArrival.PutInOrderIff | src/msg_queue.c:131-156 | an accepted message keeps the stored ones in order of acceptance if and only if no stored message lies between its slot and head |
| MqArrival.RunInOrderIff | src/msg_queue.c:254-393 | over every run the order of acceptance is kept throughout if and only if every accepted message lands behind all stored ones |
| MqArrival.EmptyRestoresOrder | src/msg_queue.c:147-156 | draining to empty re-establishes the order after any violation |
| MqArrival.HoleBreaksFifo | src/msg_queue.c:131-143 | a concrete run from an empty queue of three slots after which the newest message is stored, and will be visited, between two older ones, against src/msg_queue.h:154 |
| MqRuns.RunAccounted | src/msg_queue.c:319-393 | over every run from an empty queue and against any transport: no message is handed over more than 8 times, transmissions equal attempts (plus one in flight), enqueued = confirmed + dropped + count, sent = confirmed + in flight + timeouts, and each drop report states the true number of transmissions |
| MqRuns.FreshAccounted | src/msg_queue.c:163-186 | the accounting holds for an initialised queue |
| MqProgress.QueueLowers | src/msg_queue.c:295-393 | every service call that is not idle and every successful acknowledgement strictly lowers a measure of the stored messages |
| MqProgress.Drains | src/msg_queue.c:319-393 | calls an acknowledgement timeout apart empty the queue within as many calls as the measure says, against any transport |
| MqProgress.SixteenCallsPerMessage | src/msg_queue.c:319-393 | so sixteen such calls per stored message suffice: no livelock |
| MqImage.ScalarRoundTrip | src/mq_persist.c:35-59 | little-endian encoding and decoding are inverse on every 32-bit value, signed and unsigned, and on every four bytes |
| MqImage.ImageRoundTrip | src/mq_persist.c:111-169 | a printed image parses to the records it was printed from, whatever follows it |
| MqImage.ParsedIsPrinted | src/mq_persist.c:256-281 | conversely the bytes of records that validate are the printed form of those records |
| MqImage.ImageIs | src/mq_persist.c:111-166 | the file byte by byte: MQPQUEUE, version 1, the number of records, four zeros, and for each record friend, length and payload, numbers with the lowest byte first |
| MqImage.ParseFileIff | src/mq_persist.c:256-309 | exactly the byte strings that are accepted as a file of given records: the header, no more records than slots, and records of 1 to 1371 bytes for friends not negative, whatever stands in the reserved bytes and behind |
| MqPersist.WriteRecord | src/mq_persist.c:111-133 | one record is written whole, head and payload, unless the stream takes no more |
| MqPersist.WriteImage | src/mq_persist.c:153-166 | the stream receives header and records of the queue, and success means all of them |
| MqPersist.PushOut | src/mq_persist.c:168-180 | success means that what was written is flushed, synced and closed; the file is closed in any case |
| MqPersist.Save | src/mq_persist.c:135-196 | whatever step fails and wherever a crash comes, the name stands for an old complete file or for the complete new image; success exactly when no step that matters fails; a failed save leaves the old file |
| MqRestore.ValidateRecords | src/mq_persist.c:256-281 | the walk accepts exactly the buffers from which the given number of records can be parsed |
| MqRestore.ImportRecords | src/mq_persist.c:311-341 | validated records are enqueued in file order until the queue refuses one; the branch for a refused valid record is never taken |
| MqRestore.LoadQueue | src/mq_persist.c:283-342 | the new queue and the code of a load, for every path, file and byte string |
| MqRestore.LoadIsAllOrNothing | src/mq_persist.c:283-342 | path, open, read and format errors leave the queue untouched; success enqueues exactly the records of the file one after the other, full exactly the prefix that fits |
| MqRestore.LoadAppendsIff | src/mq_persist.c:311-341 | exactly when a load appends: the restored messages stand behind the stored ones in file order if and only if nothing is stored from the slot the next message takes up to head and there are slots enough |
| MqRestore.LoadScatters | src/mq_persist.c:311-341 | a run from an empty queue of three slots after which a load of one record puts it between two older messages, against src/mq_persist.h:61 |
| MqImport.ImportsWhatFits | src/mq_persist.c:311-341 | the import enqueues exactly the records that fit, in file order, and nothing else changes but one counted refusal |
| MqImport.AppendsAllIff | src/msg_queue.c:131-156 | messages enqueued one after the other follow the stored ones in their order if and only if there is room for all of them behind the last stored one |
| MqImport.ImportIntoFresh | src/mq_persist.c:311-341 | into an initialised queue the import is never refused and the list comes back in file order, every message waiting for a first attempt |
| MqRestore.SaveLoadRoundTrip | src/mq_persist.c:135-342 | saving any queue that satisfies the invariants and loading into a fresh one gives back the same (friend, payload) list in the same order, all pending with no attempts |
| MqMirror.TickDirty | src/msg_queue.c:106-128 | a service call either drops a message and raises the flag, or leaves flag and stored list alone |
| MqMirror.PutDirty | src/msg_queue.c:254-293 | an enqueue either succeeds and raises the flag, or leaves flag and stored list alone |
| MqMirror.AckDirty | src/msg_queue.c:295-317 | an acknowledgement either succeeds and raises the flag, or changes nothing |
| MqMirror.EventMirrored | src/toxrelayer.c:586-594 | every operation, save and crash keeps: while the flag is clear, the file reloads to the stored list |
| MqMirror.EventWhole | src/mq_persist.c:135-196 | every operation, save and crash keeps: the name stands for nothing, for the file found at the start, or for the complete image of a list the queue held |
| MqMirror.MirrorHolds | src/toxrelayer.c:2435-2446 | both over every run of operations, saves failing at any step, and crashes between any two steps of a save |
| MqMirror.BootHolds | src/toxrelayer.c:2330-2347 | both hold when the relayer has started, whatever file it found |
| MqMirror.CleanCrashLosesNothing | src/toxrelayer.c:2435-2446 | with the flag clear and the directory flushed, crash and restart lose no message and reorder none |
| MqMirrorLoop.MirrorLoop.constructor | src/toxrelayer.c:2330-2347 | start-up is the start of the protocol |
| MqMirrorLoop.MirrorLoop.SaveIfDue | src/toxrelayer.c:2435-2446 | a save is tried exactly when the flag is set and five seconds have passed, clears the flag only on success, and passes only through disk states the protocol allows a crash in |
| MqMirrorLoop.DueAfterFive | src/misc.c:34-41 | a turn of the loop tries a save exactly when the queue changed and at least five seconds have passed since the last one |
| MqMirrorLoop.ChangesAreSaved | src/toxrelayer.c:2435-2446 | progress: once the queue changed, the first turn that comes five seconds after the last save brings the mirror up to date, and turns before it leave everything as it is |
| MqMirrorLoop.FailureIsRetried | src/toxrelayer.c:2435-2446 | a failed save leaves the change pending, and the next turn five seconds later saves it |
| MqMirrorLoop.MirrorLoop.Exit | src/toxrelayer.c:292-304 | on the way out the queue is saved whatever the flag says, passing only through disk states the protocol allows a crash in |
| TgNumbers.NumberRoundTrip | src/telegram.c:195-197 | every 64-bit number and every padded serial that printf writes is read back by strtol, which stops right behind it |
| TgReference.StrtolReads | src/telegram.c:359-405 | on every text the number reader returns the value, clipped to 64 bits, and the place that a reader working from the left does |
| TgFraming.NumbersAreCanonical | src/telegram.c:195-197 | numbers are written without leading zeros, with a minus sign for negative ones only |
| TgLines.TgCursor.NextLine | src/telegram.c:274-308 | one line is read into the buffer as a C string, cut to its size, with LF, CR LF or CR as its end, and the cursor moves behind it |
| TgReference.ReadsFirst | src/telegram.c:274-308 | a read takes the first of the lines that are left, a line ending at LF, at CR LF or at CR, up to its first NUL and 143 bytes |
| TgCodec.TgBuf.Put | src/telegram.c:79-93 | the builder holds all that was put, or has overflowed exactly when that does not fit, and never writes past its end |
| TgCodec.CheckBody | src/telegram.c:129-159 | a body is accepted if and only if none of its lines ends in NNNN |
| TgCodec.WriteText | src/telegram.c:165-214 | the encoder's result for TEXT: the wire bytes and their length, or the error, with the buffer an empty string |
| TgCodec.WriteCmd | src/telegram.c:216-254 | the encoder's result for a replay request likewise |
| TgCodec.DecodeBodyLines | src/telegram.c:409-447 | the body loop collects lines up to the one that ends the record, within 1024 bytes |
| TgCodec.DecodeRecord | src/telegram.c:310-449 | the cursor-driven decoder computes the wire format's decoding of every byte string |
| TgReference.DecodeByLines | src/telegram.c:310-449 | on every byte string the decoder agrees with a second reading of the format: cut into lines first, then kind, receiver, sender, numbers and body by the list of lines, all limits as numbers |
| TgFraming.FramedRoundTrip | src/telegram.c:274-308 | every sendable telegram decodes to itself whether its lines end in LF, in CR LF or in CR, and whatever bytes follow |
| TgFraming.CrLfRoundTrip | src/telegram.c:293-299 | in particular framed with CR LF, and with CR alone |
| TgFraming.TextWireIs | src/telegram.c:165-214 | a TEXT record byte by byte |
| TgFraming.CmdWireIs | src/telegram.c:216-254 | a request byte by byte |
| TgFraming.BodyOkIff | src/telegram.c:129-159 | a body is refused exactly when NNNN stands somewhere before a line end or at its end |
| TgFraming.EncodeTextExactly | src/telegram.c:165-214 | which TEXT telegrams are refused and with which error, by the lengths, bytes and numbers of the arguments |
| TgFraming.EncodeCmdExactly | src/telegram.c:216-254 | which requests are refused and with which error |
| TgRoundTrip.TextRoundTrip | src/telegram.c:165-449 | a safe TEXT telegram decodes to itself whatever bytes follow, for every 64-bit timestamp |
| TgRoundTrip.CmdRoundTrip | src/telegram.c:216-449 | every accepted replay request decodes to itself whatever bytes follow |
| TgRoundTrip.SurvivesIffSafe | src/telegram.c:200-202 | exactly which accepted telegrams survive: if and only if the body has no CR, at most 1022 bytes, non-final lines of at most 143 bytes and a last line of at most 139 |
| TgRoundTrip.CrIsLost | src/telegram.c:274-308 | a telegram whose body is one CR is accepted and does not decode to itself, against src/telegram.c:200-202 |
| TgRoundTrip.LongLineIsLost | src/telegram.c:413-442 | neither does an accepted one whose only line has 140 bytes |
| TgRoundTrip.EncodingInjective | src/telegram.c:165-254 | encoding is injective on safe telegrams, even when other bytes follow |
| TgRoundTrip.DecodedFields | src/telegram.c:310-407 | whatever is decoded has fields and serials the encoder accepts |
| TgRoundTrip.DecodedBody | src/telegram.c:409-447 | whatever is decoded has a safe body |
| TgRoundTrip.DecodedIsNormal | src/telegram.c:274-449 | normal form: a decoded TEXT telegram can be sent again exactly when its body passes the body check, and then decodes to exactly itself |
| IniBuffer.StringCopy | src/minIni.c:134-178 | the bounded copy in its three modes: cut, quoted and escaped as far as it fits, or unescaped and cut, always terminated |
| IniBuffer.CheckEnquote | src/minIni.c:516-527 | quoting is chosen exactly for values with a quote, semicolon or hash, or with a space at the end |
| IniBuffer.FindComment | src/minIni.c:188-201 | the scan stops at the first comment sign outside a string, or at the end |
| IniBuffer.CleanString | src/minIni.c:180-211 | comment, trailing blanks and surrounding quotes are cut off in place, and unescaping is asked for exactly when quotes were |
| IniBuffer.WriteKey | src/minIni.c:544-558 | the line buffer holds key, equal sign, printed value and line end, cut to fit |
| IniBuffer.WriteSection | src/minIni.c:529-542 | the line buffer holds the bracketed section and line end, cut to fit; nothing for no section |
| IniValue.QuotedRoundTrip | src/minIni.c:180-211 | a quoted value reads back whatever it consists of, with or without a line end behind it |
| IniValue.SurvivesIff | src/minIni.c:134-211 | a value written to its line reads back if and only if it has no LF, was not truncated, and, when no quotes are put round it, has no blank at either end |
| IniFile.IniSource.Read | src/minGlue.h:23 | reading byte by byte takes a stretch of the file that is no longer than the room, holds no LF but at its end, and is shorter than the room only at an LF or at the end of the file |
| IniFile.GetKeyString | src/minIni.c:213-286 | the lookup finds the first line of the key in the first section of that name, returns its cleaned value, and marks the stretch of the file it stands on |
| IniFile.GetString | src/minIni.c:298-313 | the value of the key cut to the buffer, or the default, and its length |
| IniNames.CaseIsIgnored | src/minIni.c:237-261 | a lookup gives the same for section and key names of the same length that differ only where one has a byte 65 to 90 and the other that byte plus 32 |
| IniNames.OtherNamesDiffer | src/minIni.c:237-261 | names that differ in any other way are different keys: a file that has the one has not the other |
| IniNames.LinesRead | src/minIni.c:230-252 | a file is read in lines of at most 511 bytes, each ending at an LF, at the end of the file, or where the buffer is full |
| IniNames.LookupExactly | src/minIni.c:213-286 | a lookup succeeds if and only if some line of the key stands behind the first header of the section with no header between, and returns the value of the first such line |
| IniNames.SettingLine | src/minIni.c:251-284 | a line of blanks, name, blanks, equal sign or colon, and rest sets exactly the keys of that name, to the value in the rest |
| IniNames.HeaderLine | src/minIni.c:230-238 | a line of blanks and a bracketed name is a header, and of exactly the sections of that name |
| IniNames.BareValueReads | src/minIni.c:180-211 | a value without quotes and comment signs reads as what stands between the blanks around it and a comment |
| IniNames.QuotedValueReads | src/minIni.c:180-211 | a quoted value with escaped quotes, a comment behind it or not, reads as the value |
| IniUpdate.IniCopy.CacheFlush | src/minIni.c:569-596 | rewinding and rereading writes exactly the bytes that were counted, and stops exactly behind them |
| IniUpdate.IniCopy.CopyRest | src/minIni.c:790-800 | what is left of the file is copied byte for byte |
| IniUpdate.CopySection | src/minIni.c:693-725 | up to the section header the copy is the edit of the lines; a missing section is appended |
| IniUpdate.CopyWithKey | src/minIni.c:736-800 | from the header on the copy is the edit of the lines: replaced, inserted before the next header, or appended |
| IniUpdate.PutString | src/minIni.c:616-801 | the file and result of setting a key: new file, nothing to do, overwritten in place, or rewritten through the cache |
| IniNames.LinesWritten | src/minIni.c:529-558 | the bytes that are written for a key and for a section |
| IniNames.QuotedExactly | src/minIni.c:516-527 | which values are quoted |
| IniNames.PrintedIs | src/minIni.c:134-178 | what is written for a value that fits: itself, or quoted with a backslash before every quote |
| IniNames.SectionAppended | src/minIni.c:693-713 | a missing section is appended behind all lines, after an LF unless the cache shows that the text ends in one |
| IniNames.KeyAppended | src/minIni.c:740-753 | so is a key that is missing from the last section |
| IniNames.LineEndAdded | src/minIni.c:569-596 | for a file of up to 511 bytes that LF is written if and only if the file lacks one at its end or is shorter than two bytes |
| IniNames.PutSucceedsIff | src/minIni.c:616-801 | setting a key reports success if and only if the file can be written or the key has the value already |
| IniEdit.OverwriteIsEdit | src/minIni.c:644-671 | the in-place shortcut gives the same file as rewriting |
| IniEdit.EditSets | src/minIni.c:723-788 | a lookup in the edited lines finds the written line |
| IniEdit.EditKeepsOthers | src/minIni.c:723-788 | a lookup of any other key, in any section, finds the same line as before |
| IniSettings.EditIsOneLine | src/minIni.c:684-801 | the edit replaces one line of the key or adds the line, with at most one line end and one header; all other lines stay in order |
| IniStore.EditedFile | src/minIni.c:684-801 | the rewritten bytes are read again as the edited lines, whether or not the last line had its line end, and however many lines the value takes |
| IniStore.PutIsEdit | src/minIni.c:616-801 | whichever of the three ways a file is changed, it is changed to the edited lines |
| IniStore.PutThenLookup | src/minIni.c:616-801 | after setting a key to any value it reads as the first written line says, and back to the value if and only if that survives (or was set already); every other key in whatever section reads as before if the value is harmless; and lines still fit the buffer |
| IniStore.LeavesOthersIff | src/minIni.c:544-558 | exactly the values none of whose further lines is a header or sets another key leave all other keys of all files alone; values without LF are among them |
| IniStore.FileIsMap | src/minIni.c:616-801 | over every run of calls with harmless values the file is a map: each key reads as what was last set for it reads, names compared without case |

## Left out

- ReceiveRuns.ExactlyOnceIff: assumes that arrivals come within half a lap of the expected serial; farther away a serial says nothing about which lap it belongs to.
- MqArrival.RunFirstInFirstOut: assumes that accepted messages find the tail slot free; `MqArrival.RunInOrderIff` is the exact statement for the order alone.
- Recovery.ReplayClosesGap: assumes one archived row for each missing serial with a body that survives the codec, and room in both queues; `Recovery.ReplayRestoresIff` says what happens with several rows per serial.
- Relay.RelayEnv.ReceiveRecord: the destination a receiver's key resolves to is a parameter; what the callback that notes serials does with them is not modelled.
- MsgDatabase.Database.AddRow: errors of the engine and a NULL direction are not modelled.
- MsgDatabase.Database.QueryRange: errors of the engine and the copy of the sender, which a replay does not use, are not modelled.
- IniUpdate.PutString: erasing keys and sections is not modelled, and removing and renaming files are taken to succeed, their results being ignored by the code.
- MqMirror.MirrorHolds: a queue file that exists but could not be read at start leaves the mirror behind until the next save, as in the code (`blind`).
- MqPersist.Save: removing the temporary file and flushing the directory are best effort, as in the code; the name may fall back to an older complete file until the directory is flushed.
- IniStore.PutThenLookup: assumes lines that fit the 512-byte buffer, and names that do not look like other text (no equal sign, blank end or LF in a key, no LF in a section).
- TgRoundTrip.DecodedIsNormal: a decoded body whose last line still ends in NNNN is refused by the encoder and has no second round.
- Delivery from the transport callbacks, DHT bootstrap, options, console, logging and profile display: input, output and user interface over a library that is not part of this model.
- SQLite: the archive is a table in key order with INSERT OR REPLACE and the two range predicates; schema, statements and errors of the engine are not modelled.
- The start-up recovery of trackers from the highest stored serial (src/relay.c:195-230, src/msg_database.c:48-50): a plain maximum, which says nothing after a wrap.
- The change and drop hooks are the flag `dirty` and the list `drops`; other hook functions are not modelled.
- Forwarding to a peer that is no relay uses the body only; how the destination channel is found is a parameter.
- Received records are taken as C strings where the code calls strlen on them (src/relay.c:110-116).
- Overflow of time and size arithmetic; serials, counts and times are unbounded integers, strtol's saturation and the cast to int are written out.
- Browsing, numbers and booleans of the settings file; files and settings with NUL bytes; upper and lower case outside ASCII.
- Reading the queue file into memory (src/mq_persist.c:206-252) is a parameter: missing, unreadable, or any byte string.
- The buffer that lines of the settings file are read into is a string value; copying, cleaning and composing text work on arrays in place.
- Group chats, the command tokenizer and string helpers of the console: easier members.
