# Verified model of the agent's delivery paths

This project models, in Dafny, the parts of the agent and its platform on which delivery and
single execution depend, and proves what they promise over every input and every run.

- **Reliable uplink** (agent log, replay loop, report waiters, connector, sink): `Bytes`,
  `WalFormat`, `WalRead`, `WalLog`, `WalWrite`, `WalHistory`, `WalPass`, `WalRuns`, `WalDrains`, `Uplink`,
  `UplinkRuns`, `Delivery`, `SharedIds`, `Deliverable`.
- **Command delivery** (command tables, leased outbox, mailbox, control streams): `Store`,
  `Mailbox`, `MailboxRuns`, `MailboxOutcomes`, `CommandDelivery`, `CommandOutcomes`.
- **Envelopes and their execution**: `Envelope`, `NonceCache`, `Executor`, `Argv`, `ArgvOrder`,
  `ArgvParams`, `ArgvPatterns`, `CappedBuffer`.
- **Enrollment and sessions**: `Enrollment`, `Sessions`.

Code that updates state in place is modelled by classes and methods with loops. Each method is
proved equal to a specification function on values, and the theorems are about those functions:
invariants kept by every step, and statements over whole runs of interleaved steps. Pure code is
modelled by functions.

The checksum of the log and the decoding of a log entry are parameters (arbitrary functions), so
the results do not rest on CRC-32 or on JSON. Clocks, signature verification, action validation,
sink outcomes, store failures, lost replies, certificate bytes and map iteration order are inputs
or nondeterministic choices. A call of the store is one atomic step.

## Findings

Properties that do not hold of the code without a condition, each with the exact condition.

- An append after a torn record in the same segment hides itself and everything after it from the
  reader, unless the checksum of the mixed payload happens to match, in which case the reader gets
  that mixed payload (`WalRuns.TornThenAppended`, `WalRuns.TornThenAppendedExample`).
- A crash in the middle of a record's header is not always invisible: the missing header bytes
  count as zeros, so that for a checksum like CRC-32, which is 0 for the empty payload, a header
  whose written bytes are all zero reads as an empty entry nobody wrote, and the offset moves
  beyond the end of the segment (`WalRuns.TornHeader`, with the exact lengths).
- When the quota has deleted the cursor's segment, the old offset is applied to the oldest
  surviving one and entries are skipped, unless the offset was 0 or that segment is empty
  (`WalRuns.LostSegment`, `WalRuns.LostSegmentExample`).
- An envelope can be admitted twice. One with an expiry is admitted again exactly at the very
  instant of its expiry, if its nonce has been evicted or the cache is full then; one without an
  expiry, exactly when its nonce has been evicted or the cache is full. For every cache capacity
  there is a run in which this happens (`Executor.ReadmittedExactly`,
  `Executor.ReadmittedWithoutExpiry`, `Executor.AcceptedTwice`).
- Delivery is guaranteed for ids, not for entries: a late acknowledgement of a timed-out attempt
  can move the cursor past a later entry with the same id that never reaches the sink. This cannot
  happen if and only if no two different entries submitted to one queue share an id
  (`SharedIds.SharedIdLosesEntry`, `SharedIds.ContentSafeExactly`).
- Without validation, an argument can depend on the iteration order of the parameters. For a
  template with one hole it does not, whatever the other parameters are, if and only if no other
  hole occurs in the value (`Argv.OrderMatters`, `ArgvOrder.OrderFreeExactly`). It is moreover the
  simultaneous substitution if and only if, in addition, no hole for `lines` occurs in the value
  (`Argv.DeterminedExactly`). The validators of the catalog ensure both (`Argv.ArgvDetermined`).

The comment in `readSegment` takes a half-written header for the end of the file; that holds only
under the condition of `WalRuns.TornHeader`. The header comment of `internal/authenv/authenv.go` describes the parameters as a sequence of
zero-terminated pairs; the code writes a count and length-prefixed fields, and the model follows
the code. Another comment there calls the nonce cache a bounded LRU; the code drops expired
entries only, and so does the model. The comment on `SubmitEnvelope` puts the expiry check before
the nonce check; the code records the nonce first.

## Model

| member | source | states |
|---|---|---|
| `WalFormat.ReadRecord` | internal/reporter/wal.go:217-235 | one round of the read loop classifies any bytes as a record, the end or damage, including short header reads |
| `WalFormat.ReadSegment` | internal/reporter/wal.go:204-239 | the read loop computes the recursive scan: entries, offset and damage flag |
| `WalFormat.ScanTakes` | internal/reporter/wal.go:204-239 | on arbitrary bytes a scan returns the first `max` readable entries and an offset from which exactly the remaining ones are readable |
| `WalFormat.ReadableBounded` | internal/reporter/wal.go:215-237 | arbitrary bytes hold finitely many readable entries, at most one per header's worth of bytes |
| `WalFormat.RecordFound` | internal/reporter/wal.go:116-125 | a written record is read back as its payload, whatever precedes and follows it |
| `WalFormat.TornEnds` | internal/reporter/wal.go:225-228 | a record with a complete header and an incomplete payload reads as the end of the segment |
| `WalFormat.ReadBack` | internal/reporter/wal.go:204-239 | encoding then reading gives the entries back, from any record boundary, with a half-written record invisible |
| `WalFormat.ScanToBoundary` | internal/reporter/wal.go:204-239 | a scan started on a record boundary stops on the boundary after the entries it returned, without damage |
| `WalRead.ReadFromLoop` | internal/reporter/wal.go:167-201 | the loop over segments computes the recursive visit, over listings whose files may vanish |
| `WalRead.ReadFromTakes` | internal/reporter/wal.go:167-201 | for any sorted listing and any file contents, a read returns exactly the next `max` entries ahead of the cursor, which are all entries if the cursor is beyond the newest segment, and the new cursor has exactly the rest ahead |
| `WalLog.AheadOfMark` | internal/reporter/wal.go:167-201 | on an intact directory, a cursor that stands for `p` consumed entries has exactly the flat log from `p` ahead of it |
| `WalLog.VisitGood` | internal/reporter/wal.go:180-199 | reading keeps the cursor on record boundaries |
| `WalLog.ReadIntact` | internal/reporter/wal.go:167-201 | `ReadFrom` refines a flat log: entries `p, p+1, ...` in order, at most `max`, and a cursor that stands for having consumed those too |
| `WalWrite.Wal.constructor` | internal/reporter/wal.go:42-100 | opening resumes at the end of the newest segment and changes no file; an empty directory gets segment 0 |
| `WalWrite.Wal.Append` | internal/reporter/wal.go:102-131 | refuses exactly the oversized payloads; otherwise rotation, header, payload and quota change the directory as specified, and the writer's position stays right |
| `WalWrite.Wal.EnforceQuota` | internal/reporter/wal.go:135-163 | deletes as the specified eviction does and keeps the active segment |
| `WalWrite.DropOldest` | internal/reporter/wal.go:152-161 | the deletion loop with its running total is the recursive eviction |
| `WalWrite.TotalSize` | internal/reporter/wal.go:143-150 | the size loop sums the sizes of all segments |
| `WalWrite.Wal.ReadFrom` | internal/reporter/wal.go:167-201 | a read of the object's directory is the specified read, and changes nothing |
| `WalWrite.EnforceSuffix` | internal/reporter/wal.go:135-163 | the quota removes a prefix of the listing and never all of it |
| `WalWrite.EvictSize` | internal/reporter/wal.go:152-161 | after eviction the total is within the quota or only the active segment is left |
| `WalWrite.AppendSize` | internal/reporter/wal.go:102-163 | after any successful append under a positive quota the size is at most the quota or 32 MiB - 1 + 8 + 4 MiB |
| `WalWrite.TotalIs` | internal/reporter/wal.go:143-150 | the total that the quota is compared with is the number of bytes in all segments |
| `WalWrite.AppendClosesFull` | internal/reporter/wal.go:102-163 | no segment is closed before it has reached 32 MiB |
| `WalHistory.AppendIsMicroSteps` | internal/reporter/wal.go:102-131 | however an append's write is cut, its partial states are intact logs with exactly the bytes written so far, and the end result is `Append` |
| `WalHistory.DropKeeps` | internal/reporter/wal.go:152-161 | deleting oldest segments keeps the log intact and accounts for every deleted entry |
| `WalHistory.DropPosition` | internal/reporter/wal.go:152-161 | a cursor whose segment survives, or whose offset is 0, still stands for the right position after deletions |
| `WalHistory.PositionAhead` | internal/reporter/wal.go:167-201 | a cursor has exactly the accepted entries from its position on ahead of it |
| `WalPass.DeletesEnforce` | internal/reporter/wal.go:152-161 | deleting one file at a time while over the quota ends exactly where the quota enforcement ends |
| `WalPass.OpKeeps` | internal/reporter/wal.go:102-163 | every single file operation of the writer, and a crash between any two, leaves an intact log that only grows at the end and shrinks at the front |
| `WalPass.FinishedIsReadFrom` | internal/reporter/wal.go:167-201 | a call that opens its files one by one returns what `ReadFrom` returns on the files as they were when opened, deleted ones included |
| `WalPass.WriterKeeps` | internal/reporter/wal.go:102-201 | whatever the writer does between two files of a call, what the call has collected stays right |
| `WalPass.AdvanceKeeps` | internal/reporter/wal.go:180-199 | opening the next listed file, whether skipped, deleted, closed or still growing, adds exactly the next accepted entries, passing over only deleted ones |
| `WalRuns.QuotaKeepsSuffix` | internal/reporter/wal.go:102-163 | after any run of appends the directory holds a suffix of all accepted entries in consecutively numbered intact segments, the newest entry included, in at most max(quota, 32 MiB - 1 + 8 + 4 MiB) bytes, and every closed segment is full |
| `WalRuns.ReaderGetsEachEntryOnce` | internal/reporter/wal.go:102-239 | over any interleaving of rotations, partial and complete writes, single deletions, crashes and reads that open file after file with any batch sizes, every accepted entry before the reader's position was returned once, in order, or deleted by the quota, and all others are ahead |
| `WalRuns.CallIsReadFrom` | internal/reporter/wal.go:167-201 | each finished call in such a run is a `ReadFrom` on the files as it saw them |
| `WalRuns.FreshReader` | internal/reporter/wal.go:42-58 | a new log and a new reader satisfy that invariant |
| `WalRuns.DrainTakes` | internal/reporter/wal.go:167-201 | any sequence of reads on a fixed directory returns the same entries as one read of the summed size |
| `WalDrains.ReadOnce` | internal/reporter/wal.go:167-201 | a call that opens its files one by one and is not disturbed returns exactly the next `max` accepted entries, or all there are |
| `WalDrains.EverythingRead` | internal/reporter/wal.go:167-239 | from every reachable state a reader can read to the end: every accepted entry is then returned or was deleted by the quota, and the newest is the last one returned |
| `WalDrains.AppendedIsRead` | internal/reporter/wal.go:102-239 | from every reachable state without a torn record at the end, an entry appended next, however its write is cut after the header, can be read as the last of all entries |
| `WalRuns.DamageIsolated` | internal/reporter/wal.go:180-239 | whatever bytes the earlier segments hold, reads pass beyond them after boundedly many entries and then return the later intact entries in order |
| `WalRuns.LostSegment` | internal/reporter/wal.go:180-184 | with the cursor's segment deleted, all surviving entries are still ahead if and only if the offset is 0 or the oldest survivor is empty |
| `WalRuns.LostSegmentExample` | internal/reporter/wal.go:180-184 | a concrete directory and cursor for which a surviving entry is never returned |
| `WalRuns.TornThenAppended` | internal/reporter/wal.go:217-235 | after a torn record and further appends, exactly the entries before it are readable if and only if the missing bytes are not all there or the checksum of the mixed payload differs; otherwise the mixed payload is read next; the appended entries come out only if the first has the torn one's length, checksum and first bytes |
| `WalRuns.TornThenAppendedExample` | internal/reporter/wal.go:217-235 | a concrete segment whose appended entry is never returned, for every checksum |
| `WalRuns.TornHeader` | internal/reporter/wal.go:217-235 | with the last header cut after 1 to 7 bytes, exactly the entries before it are readable if and only if the length shows in the bytes that are there or the checksum of the empty payload is not 0; otherwise an empty entry is read too and the offset ends beyond the segment |
| `Uplink.StrikeOff` | internal/uplink/grpc.go:349-352 | deleting the acked ids one by one leaves the ids not named; none is left exactly if the ack names all |
| `Uplink.GRPCUplink.constructor` | internal/uplink/grpc.go:83-100 | a new uplink has no waiters and nothing signalled |
| `Uplink.GRPCUplink.Add` | internal/uplink/grpc.go:409-411 | registering puts the waiter behind all others and keeps those, through reallocation of the slice |
| `Uplink.GRPCUplink.ReceiveAck` | internal/uplink/grpc.go:341-358 | the filter that overwrites the slice while ranging over it keeps exactly the unresolved waiters in order, each without the acked ids, and signals nil to the resolved ones only |
| `Uplink.GRPCUplink.FailAllWaiters` | internal/uplink/grpc.go:372-377 | a disconnect signals an error to every waiter and empties the list |
| `Uplink.GRPCUplink.RemoveWaiter` | internal/uplink/grpc.go:444-453 | cuts out the one waiter in place and keeps all others in order |
| `UplinkRuns.StepCorrect` | internal/uplink/grpc.go:332-453 | every event keeps the waiter invariants: right signals, right remaining ids, registration order, no waiter lost |
| `UplinkRuns.WaitersCorrect` | internal/uplink/grpc.go:332-453 | over any split, order and repetition of acks, errors, removals and disconnects, a waiter gets nil only if acks of its own kind received since it registered name all its ids, none is reordered, and one leaves the list only when it is told nil, is told an error at a disconnect, or is removed by its own call |
| `UplinkRuns.NewCorrect` | internal/uplink/grpc.go:83-100 | a new uplink satisfies the waiter invariants |
| `UplinkRuns.NotToldLater` | internal/uplink/grpc.go:372-453 | a waiter removed by its call or failed at a disconnect is never told nil in any later run, whatever acks arrive; a disconnect tells every waiter an error |
| `UplinkRuns.SendErrorTold` | internal/uplink/grpc.go:317-330 | a failed send tells its waiter the error and leaves the list alone |
| `Delivery.ResumeSettles` | internal/reporter/reporter.go:322-338 | when `SendReliable` returns nil, the sink has accepted the id of every decodable entry up to the position the cursor moves to |
| `Delivery.StepKeepsInv` | internal/reporter/reporter.go:292-342 | every step of log, replay loop, uplink, connector and crash keeps the end-to-end invariant |
| `Delivery.RunKeepsInv` | internal/reporter/reporter.go:292-342 | so does every run |
| `Delivery.NoSilentLoss` | internal/reporter/reporter.go:161-176 | in every run each entry ever accepted is at or after the cursor on disk, or was deleted by the quota, or does not decode, or carries an id for which the sink returned success under its kind |
| `Delivery.NoContentLost` | internal/connector/server.go:215-244 | if accepted entries of a queue that share an id are equal, each decodable entry before the cursor on disk was itself accepted by the sink or deleted by the quota |
| `Deliverable.BatchPhase` | internal/reporter/reporter.go:302-340 | between two reads of the loop, a run of reading, sending, serving and acknowledging one batch moves the loop's cursor on, saves it, and changes nothing else |
| `Deliverable.AllDeliverable` | internal/reporter/reporter.go:292-342 | from every reachable state, whatever is torn, half read, under way or unsaved, after a restart a run of reading, sending, serving and acknowledging in batches of any given size brings the cursor on disk of every queue past everything accepted |
| `Deliverable.LoopsNeverStuck` | internal/reporter/reporter.go:292-342 | from every reachable state, without a restart, all replay loops can finish or give up what they are doing, the stream can break, and a run in batches of any given size then brings every loop's cursor past everything accepted, and the one on disk wherever something was left to read or nothing was unsaved |
| `Deliverable.FailuresRecover` | internal/uplink/grpc.go:409-453 | an empty read, a full send queue and a timeout take the loop back to reading with its cursors where they were; a failed sink gives no ack; a restart leaves no append, call, waiter or unsent batch |
| `Deliverable.ReturnMoves` | internal/reporter/reporter.go:322-340 | in every run, a batch its call was told nil for is behind the loop's cursor, saved or not, and behind the one on disk if saved; after an error both cursors are where they were |
| `SharedIds.SharedIdLosesEntry` | internal/uplink/grpc.go:341-356 | for any queue and any two different entries with one id there is a run that submits only these and loses the second: the cursor on disk is past it, nothing was deleted, and it is neither at the sink nor in any batch under way |
| `SharedIds.ContentSafeExactly` | internal/reporter/reporter.go:292-342 | for any set of entries that may be submitted to each queue: in all such runs every decodable entry the cursor has passed was itself accepted by the sink or deleted by the quota, if and only if no two different entries submitted to one queue share an id |
| `Store.CommandStore.Submit` | internal/platform/store.go:47-80 | a new command gets its row, its first event and its dispatch request together; a duplicate changes nothing |
| `Store.CommandStore.Move` | internal/platform/store.go:83-109 | status and event change together, the event records the old status; an unknown command changes nothing |
| `Store.CommandStore.Lease` | internal/platform/store.go:157-179 | the fetch leases as specified: the first free rows up to the limit (`Store.FetchTakes`), and no other row changes (`Store.FetchLeases`) |
| `Store.CommandStore.Publish` | internal/platform/store.go:182-185 | publishing marks that row only |
| `Store.CommandStore.Release` | internal/platform/store.go:188-192 | an error mark ends that row's lease only |
| `Store.FetchLeases` | internal/platform/store.go:157-179 | a fetch takes at most `limit` rows, all eligible, in id order, each once, and touches no other row |
| `Store.FetchTakes` | internal/platform/store.go:157-179 | every row taken is eligible and not locked by another transaction, and one that is free is left only if `limit` rows before it were taken |
| `Store.ReleaseFrees` | internal/platform/store.go:188-192 | an error mark makes an unpublished row eligible again at once |
| `Store.CommitKeeps` | internal/platform/store.go:47-192 | every transaction keeps the event chain, the status and the single dispatch request of every command |
| `Store.EventLogReplays` | internal/platform/store.go:47-146 | in every reachable database a command's events form a chain from QUEUED to its current status, and it has exactly one dispatch request |
| `Store.ReplayIsState` | internal/platform/store.go:47-138 | replaying the event log from nothing gives the command table |
| `Mailbox.Mailbox.constructor` | internal/connector/mailbox.go:49-57 | the mailbox starts empty |
| `Mailbox.Mailbox.SubmitCommand` | internal/connector/mailbox.go:60-84 | duplicates and full mailboxes are refused without change; otherwise the command is queued last under its asset |
| `Mailbox.Mailbox.CancelCommand` | internal/connector/mailbox.go:87-101 | a queued command expires, a dispatched one gets a pending cancel frame, anything else is an error without change |
| `Mailbox.Mailbox.TakeDispatch` | internal/connector/mailbox.go:104-134 | the sweep over the queue yields the commands, the kept queue, the new states and the pending cancels as specified |
| `Mailbox.Mailbox.CompleteCommand` | internal/connector/mailbox.go:154-161 | a known command becomes terminal with its result; an unknown one changes nothing |
| `MailboxRuns.SweepIs` | internal/connector/mailbox.go:104-134 | the sweep expires exactly the late commands, hands out exactly the queued ones in time, and keeps the order |
| `MailboxRuns.SweepPending` | internal/connector/mailbox.go:104-134 | a sweep never increases the number of pending commands |
| `MailboxRuns.StepKeeps` | internal/connector/mailbox.go:60-161 | every operation keeps the mailbox invariant |
| `MailboxRuns.MailboxCorrect` | internal/connector/mailbox.go:60-161 | over every run: each command dispatched at most once and in time, per asset in submission order; cancel frames only after the dispatch of their command; at most `perAsset` pending per asset; every queued command indexed and in the queue of its one asset |
| `MailboxRuns.EachOnce` | internal/connector/mailbox.go:60-134 | no id is submitted twice and none is dispatched twice, across all control streams |
| `MailboxRuns.NewMailbox` | internal/connector/mailbox.go:49-57 | the invariant holds of an empty mailbox |
| `MailboxRuns.StepForward` | internal/connector/mailbox.go:60-161 | states only move forward in the order queued, dispatched, expired, terminal; only queued commands are dispatched |
| `MailboxRuns.NeverDispatchedAgain` | internal/connector/mailbox.go:60-161 | a command that was dispatched, expired, cancelled while queued or completed is never handed out later in any run, and terminal is final |
| `MailboxOutcomes.CancelledNeverSent` | internal/connector/mailbox.go:87-134 | a command cancelled while queued answers without a push, and is never handed out in any later run |
| `MailboxOutcomes.CancelRequests` | internal/connector/mailbox.go:87-101 | a cancel asks for a frame exactly if the command is dispatched, and fails exactly if it is unknown, expired or terminal |
| `MailboxOutcomes.CancelFramesExact` | internal/connector/mailbox.go:87-134 | in every run the cancel frames an asset is given are the cancels of dispatched commands filed for it, each once and in order, and its next dispatch leaves none of them out |
| `MailboxOutcomes.PendingIs` | internal/connector/mailbox.go:66-73 | the count that the capacity is compared with is the number of different commands queued or dispatched |
| `MailboxOutcomes.PendingBounded` | internal/connector/mailbox.go:60-84 | in every run an asset never has more commands queued or dispatched than the capacity |
| `MailboxOutcomes.QueuedGoesOut` | internal/connector/mailbox.go:104-134 | a queued command goes out with the next dispatch of its asset that is in time |
| `MailboxOutcomes.SubmitThenDispatch` | internal/connector/mailbox.go:60-134 | a command is accepted exactly if its id is new and its asset has room, and then goes out with the next dispatch in time |
| `MailboxOutcomes.CompleteEnds` | internal/connector/mailbox.go:154-161 | a result makes its command terminal, is kept with it, and touches no other command |
| `MailboxOutcomes.CompletedFinal` | internal/connector/mailbox.go:60-161 | a terminal command stays as it is in every run until another result for it arrives |
| `MailboxOutcomes.SentAsSubmitted` | internal/connector/mailbox.go:60-134 | in every run whatever is handed out was submitted for the same asset with the same order, no longer ago than the time to live |
| `CommandDelivery.HandOut` | internal/platform/store.go:157-179 | leasing an eligible row keeps all leases respected |
| `CommandDelivery.StepKeeps` | cmd/connector/main.go:176-223 | every step of dispatcher, store, mailbox and control streams keeps the delivery invariant |
| `CommandDelivery.AtMostOnce` | cmd/connector/main.go:176-223 | for any schedule of fetches, lease expiries, failures and redeliveries a command enters the mailbox at most once and is dispatched at most once, a published dispatch request is known to the mailbox, and no row is handed out again within 30 seconds unless released, nor ever after publication |
| `CommandOutcomes.StoppedNotSent` | internal/connector/mailbox.go:87-161 | in every run of the whole system, a command an administrator cancels while it is queued, or that has its result, is not handed out afterwards |
| `CommandOutcomes.DispatchedAsSubmitted` | cmd/connector/main.go:197-216 | in every run, whatever a control stream is handed was submitted with that id, asset, action, parameters and time limit |
| `CommandOutcomes.CommandDeliverable` | cmd/connector/main.go:176-223 | from every reachable state, whatever leases and failures came before, an unpublished dispatch request can be published; a command new to a mailbox with room for it is then marked as being dispatched and handed to its asset |
| `CommandOutcomes.SubmitDelivers` | cmd/connector/main.go:176-223 | from every reachable state with room for the asset, a command submitted under a new id can be handed to its asset |
| `CommandOutcomes.StepsRecorded` | internal/platform/store.go:83-146 | the tables get the new status of a known command, the result's status together with the mailbox's result, and a row for every cancel request |
| `CommandOutcomes.AttemptsCount` | internal/platform/store.go:157-179 | in every run the attempts of a row are the number of times it was handed out |
| `Envelope.SortKeys` | internal/authenv/authenv.go:79-83 | sorting gives the same keys, strictly ascending |
| `Envelope.LessIs` | internal/authenv/authenv.go:79-83 | the order of the keys is decided at their first difference |
| `Envelope.CollectKeys` | internal/authenv/authenv.go:79-82 | ranging over the map gives every key once, in any order |
| `Envelope.WritePairs` | internal/authenv/authenv.go:84-88 | the loop appends the length-prefixed pairs in key order |
| `Envelope.CanonicalBytes` | internal/authenv/authenv.go:70-96 | the buffer holds the canonical form, whatever order the map was walked in |
| `Envelope.AscendingUnique` | internal/authenv/authenv.go:79-83 | a set of keys has only one ascending listing |
| `Envelope.CanonicalUnique` | internal/authenv/authenv.go:70-96 | the canonical form of an envelope is unique |
| `Envelope.CanonicalInjective` | internal/authenv/authenv.go:70-103 | with all lengths below 2^32, two envelopes have equal bytes if and only if all signed fields are equal, the parameter maps included |
| `Envelope.CanonicalBack` | internal/authenv/authenv.go:70-103 | with all lengths below 2^32, an independent decoder reads the envelope back from its canonical bytes, all signed fields and parameters included |
| `NonceCache.HexInjective` | internal/authenv/authenv.go:134-135 | two nonces have the same cache key if and only if they are equal |
| `NonceCache.Nonces.constructor` | internal/authenv/authenv.go:128-130 | the cache starts empty |
| `NonceCache.Nonces.CheckNonce` | internal/authenv/authenv.go:133-153 | the in-place purge and insertion compute the specified cache, and the result says whether the nonce was new |
| `NonceCache.PurgeIs` | internal/authenv/authenv.go:136-147 | a purge keeps exactly the unexpired entries when the cache is at capacity and everything otherwise |
| `NonceCache.CheckConsistent` | internal/authenv/authenv.go:133-153 | `items` and `order` always hold the same keys, each once |
| `Executor.Intake.constructor` | internal/executor/engine.go:60-81 | the engine starts idle, with an empty nonce cache whose capacity is a parameter (10000 in the source) |
| `Executor.Intake.Enqueue` | internal/executor/engine.go:93-105 | refused by policy, refused when the queue is full, otherwise queued last; an unbuffered queue hands over to a waiting worker or refuses; `Executor.EnvelopePlaced` and `Executor.OnlyAllowedRun` say what this comes to |
| `Executor.Intake.TakeEnvelope` | internal/executor/envelope.go:16-52 | signature, nonce and expiry are checked in this order, and every envelope is either placed or reported at once, as `Executor.AdmittedIff` and `Executor.EnvelopePlaced` say |
| `Executor.ResultsConserved` | internal/executor/engine.go:149-243 | in every run from an idle engine, per command id, envelopes received equal results handed over plus commands queued plus commands running, with queue and workers bounded |
| `Executor.AdmittedIff` | internal/executor/envelope.go:16-48 | an envelope is admitted if and only if it has not expired and, with verification on, it is signed and has a nonce no live cache entry blocks |
| `Executor.EnvelopePlaced` | internal/executor/envelope.go:16-52 | an admitted envelope with an allowed action and room for it is queued last or given to a waiting worker, and not reported; any other is reported and not executed |
| `Executor.OnlyAllowedRun` | internal/executor/engine.go:93-105 | in every run only admitted envelopes with allowed actions are queued or begun, each at most once per admission, in the order of their arrival |
| `Executor.EverythingReported` | internal/executor/engine.go:149-243 | from every reachable state the workers can finish all that is queued and running, and then exactly the envelopes received have been reported |
| `Executor.ReadmittedExactly` | internal/executor/envelope.go:24-48 | an admitted envelope with an expiry is admitted again if and only if it is presented exactly at its expiry and the cache does not block it then |
| `Executor.GuardKept` | internal/executor/envelope.go:24-48 | over every run each admitted envelope was in time and is remembered until its expiry, through evictions |
| `Executor.SingleAcceptance` | internal/executor/envelope.go:24-48 | in every run an envelope with an expiry reaches `Engine.Submit` at most once at instants other than exactly its expiry |
| `Executor.ReadmittedWithoutExpiry` | internal/executor/envelope.go:24-48 | in every run, an envelope without an expiry is admitted, first or again, if and only if its nonce is not in the cache or the cache is full |
| `Executor.AcceptedTwice` | internal/authenv/authenv.go:136-147 | for every capacity and every signed envelope there is a run of capacity + 1 presentations in which it is admitted twice: the second time at its expiry, or at any later instant if it has none |
| `Executor.NoFalseReplay` | internal/authenv/authenv.go:133-153 | in every run a signed envelope that has not expired is admitted if no signed envelope with its nonce was presented before |
| `Argv.ValidateLogTail` | internal/executor/actions.go:47-66 | accepts exactly safe paths under a log directory without a parent step, with an absent, empty or 1-9999 line count |
| `Argv.FillArg` | internal/executor/actions.go:137-141 | the inner loop substitutes every parameter once, in some iteration order, then the default |
| `Argv.BuildArgv` | internal/executor/actions.go:134-145 | for any action the result is the binary and one filled argument per template argument |
| `Argv.MatchesOnlyName` | internal/executor/actions.go:138-140 | at a template's single hole, a key matches if and only if it is the hole's name, braces in keys included |
| `Argv.OneHole` | internal/executor/actions.go:134-145 | with one hole and a value in which neither another hole nor one for `lines` occurs, every iteration order gives the simultaneous substitution |
| `Argv.CatalogGuarded` | internal/executor/actions.go:76-131 | validation leaves no hole in the value of any hole of any catalog action |
| `Argv.ArgvDetermined` | internal/executor/actions.go:134-145 | for every program of the catalog and all accepted parameters, extra keys included, the argument vector is the same for every iteration order and equals simultaneous substitution |
| `Argv.LogTailArgv` | internal/executor/actions.go:103-107 | the log reader is started on a whitelisted path, and only an absent line count is defaulted |
| `ArgvPatterns.AcceptsExactly` | internal/executor/actions.go:29-66 | the validators accept exactly the values that match the regular expressions of the source, on the whitelist and without a parent step; an empty line count is none |
| `ArgvParams.LinesAre` | internal/executor/actions.go:32-32 | a line count is accepted exactly if it is the decimal form of a number from 1 to 9999 |
| `ArgvParams.SleepSecondsAre` | internal/executor/actions.go:33-33 | a sleep is accepted exactly if it is the decimal form of a number from 1 to 60 |
| `ArgvParams.LogPathContained` | internal/executor/actions.go:36-66 | walking an accepted path component by component ends inside one of the two log directories |
| `Argv.DeterminedExactly` | internal/executor/actions.go:134-145 | for a template with one hole and a value of it: all parameters and all iteration orders give the simultaneous substitution if and only if no other hole occurs in the value, nor one for `lines` |
| `Argv.OrderMatters` | internal/executor/actions.go:138-140 | a template and unvalidated parameters for which two iteration orders give different arguments |
| `ArgvOrder.OrderFreeExactly` | internal/executor/actions.go:134-145 | for a template with one hole and a value of it: whatever the other parameters are, all iteration orders give the same argument, if and only if no other hole occurs in the value |
| `ArgvOrder.ManyHoles` | internal/executor/actions.go:134-145 | any number of holes in one argument: if no key has a closing brace and no hole a value with braces, every iteration order gives the simultaneous substitution |
| `ArgvOrder.SpanningKey` | internal/executor/actions.go:138-140 | a key with braces that reaches from one hole into the next, with two iteration orders that differ |
| `CappedBuffer.Capped.constructor` | internal/executor/engine.go:300-305 | the buffer starts empty with the configured or default limit |
| `CappedBuffer.Capped.WriteChunk` | internal/executor/engine.go:307-333 | reports the whole chunk as written and updates head, tail and flag as specified |
| `CappedBuffer.Capped.Output` | internal/executor/engine.go:335-340 | returns the text that `CappedBuffer.OutputCharacterised` describes, and changes nothing |
| `CappedBuffer.WriteHolds` | internal/executor/engine.go:307-333 | a write keeps the relation between the buffer and everything written so far |
| `CappedBuffer.OutputCharacterised` | internal/executor/engine.go:293-342 | for every chunking the text returned is all of the output if that is within the limit, and otherwise a prefix of between half and all of the limit, the marker, and exactly the last bytes up to half of it, with at most 1.5 limits kept in all |
| `Enrollment.EnrollmentStore.Begin` | internal/platform/store.go:282-292 | inserts a processing record only if there is none, and says so |
| `Enrollment.EnrollmentStore.Fail` | internal/platform/store.go:295-299 | deletes a processing record and never a completed one |
| `Enrollment.EnrollmentStore.Complete` | internal/platform/store.go:302-330 | completes a processing record with its ledger row, or rolls both back |
| `Enrollment.CompletedStays` | internal/platform/store.go:282-330 | no step of any call alters or deletes a completed record |
| `Enrollment.RunKeeps` | internal/connector/bootstrap.go:54-120 | over every interleaving each response equals the completed record, and the ledger has one certificate per completed enrollment and none for others |
| `Enrollment.EnrollmentAgreement` | internal/connector/bootstrap.go:54-120 | all successful responses for one enrollment id carry the same asset, certificate and expiry, which is in the ledger exactly once |
| `Enrollment.CompletedReplays` | internal/connector/bootstrap.go:66-77 | a call that finds a completed record with a certificate responds with that record, and changes nothing |
| `Enrollment.ResetOnlyStale` | internal/connector/bootstrap.go:66-83 | a call resets the record it finds exactly if that is still processing, cannot be read back, or has no certificate |
| `Enrollment.BusyRefused` | internal/connector/bootstrap.go:94-102 | a call that finds a record when it begins is refused and changes no table, whatever the store answers |
| `Enrollment.FailureCompensated` | internal/connector/bootstrap.go:104-108 | after a failed signing the record is taken away again, unless the compensation itself fails |
| `Enrollment.EveryCallAnswered` | internal/connector/bootstrap.go:54-120 | in any state, whatever other calls have left behind, a new call can be answered: with the record if the enrollment is completed, otherwise with a certificate for its own key |
| `Enrollment.LateCallCompensates` | internal/connector/bootstrap.go:108-112 | a call that comes after the completion of its enrollment is refused and leaves the tables alone |
| `Enrollment.CompletedByAnother` | internal/connector/bootstrap.go:78-101 | a run in which a call completes the record of another call that had reset its own |
| `Sessions.Session.constructor` | internal/connector/session.go:43-49 | a new session has its epoch and an open fence |
| `Sessions.Session.CloseFence` | internal/connector/session.go:50-52 | closes an open fence; a closed one must not be closed again |
| `Sessions.SessionRegistry.constructor` | internal/connector/session.go:33-35 | the registry starts empty |
| `Sessions.SessionRegistry.Connect` | internal/connector/session.go:38-55 | the new session gets the next epoch and becomes current, and the replaced one, if any, is fenced and returned |
| `Sessions.SessionRegistry.Touch` | internal/connector/session.go:60-69 | succeeds exactly for the current session and refreshes only that one |
| `Sessions.SessionRegistry.Disconnect` | internal/connector/session.go:72-78 | removes the session exactly if it is current; a replaced one changes nothing |
| `Sessions.FencingHolds` | internal/connector/session.go:38-78 | over every run of an initially empty registry each fence is closed at most once, and a current session is not fenced and has the largest epoch ever issued for its asset |
| `Sessions.CurrentIsLast` | internal/connector/session.go:38-78 | over every run the current session of an asset is the one last registered for it, unless that one has unregistered, and then there is none |
| `Sessions.FencedExactly` | internal/connector/session.go:38-78 | a fence is closed exactly when a registration replaces its session |
| `Sessions.ReplacedStaysReplaced` | internal/connector/session.go:60-78 | a session that is not current never becomes current again, so its later calls change nothing |

## Left out

- WalRuns.ReaderGetsEachEntryOnce: assumes that the quota deletes no segment a non-zero cursor offset points into, that no append follows a torn record, and that a crash leaves a complete header or nothing; the three cases are settled by `WalRuns.LostSegment`, `WalRuns.TornThenAppended` and `WalRuns.TornHeader`.
- Deliverable.AllDeliverable: that some run delivers everything, not that every fair run does; the restart is there because a cursor that could not be saved is only written again after a further batch or a restart (`Deliverable.LoopsNeverStuck` does without it).
- CommandOutcomes.CommandDeliverable: that some run delivers, not that every fair run does; likewise for `CommandOutcomes.SubmitDelivers`, `WalDrains.EverythingRead`, `Executor.EverythingReported` and `Enrollment.EveryCallAnswered`.
- Delivery.NoSilentLoss: the same assumptions, also for `Delivery.NoContentLost` and `SharedIds.ContentSafeExactly`; entries that do not decode are skipped by the replay loop and are excepted.
- Executor.SingleAcceptance: envelopes without an expiry are not accepted only once; `Executor.ReadmittedWithoutExpiry` says exactly when they are accepted again.
- WalWrite.Wal.Append: write, sync, stat and delete errors are not modelled, and neither are negative segment numbers.
- WalWrite.Wal.EnforceQuota: a failing stat, which the source skips, and a failing delete, which it returns, are not modelled.
- Mailbox.Mailbox.TakeDispatch: commands are values looked up by id, not shared objects, and the in-place filter of the queue is a new sequence; the wake-up signal and `Wait` are not modelled.
- Uplink.GRPCUplink.ReceiveAck: a waiter is a value with a tag for its identity, and a channel never blocks; deadlock and timing of the uplink are not modelled.
- Uplink.GRPCUplink.FailAllWaiters: the waiters of the metrics path are not modelled, nor is a send that blocks.
- Store.CommandStore.Move: monotone or final statuses are not claimed, since the code does not guard the old status.
- CommandDelivery.AtMostOnce: covers one connector process; after a restart the in-memory mailbox is empty.
- Sessions.SessionRegistry.Connect: epochs are unbounded; wrap-around at 2^64, `Online` and `OfflineSweep` are not modelled.
- Enrollment.EnrollmentAgreement: token and signing-request checks are a possible refusal, and certificate rotation is not modelled.
- Argv.ArgvDetermined: covers the built-in programs; the loading and validation of plugin actions is not modelled.
- ArgvOrder.ManyHoles: a sufficient condition; with several holes the exact one would also have to tell apart values and keys whose braces only together make up a hole.
- The metrics path, whose acknowledgements are cumulative and whose buffer may drop samples.
- Delivery of cancel requests through the outbox: their payload names no asset, so the pending frame is filed under the empty one.
- gRPC, TLS, Kafka, PostgreSQL, X.509 and PEM handling, collectors, inventory, watchdog, cgroups, process killing, the console and its sign-in, and the metrics bridge: foreign calls, input and output, or one-branch facts.
