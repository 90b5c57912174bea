# Verified models of the benchmark tools

This project models the parts of the repository that are state machines or exact arithmetic, and proves what
they keep over every run and every input. It needs nothing outside this directory: `dafny verify dfyconfig.toml`.

## What is modelled

**The CSV writer of `rate-latency-tool`** (`Text`, `CsvRecords`, `Listing`, `Expiry`, `CsvProtocol`, `CsvSafety`,
`CsvShutdown`, `CsvRuns`, `CsvFinish`, `CsvTasks`). Four tasks share an ordered table of pending transactions and one row
channel: the tracker inserts sent records, the matcher removes the ones a block contains, the expirer scans for
old ones and stops at the first young one, the writer drains the channel into the file. `CsvProtocol` is that
protocol as a state machine, one step per lock section or channel operation, in any interleaving, with both ways
the tracker can leave. `CsvSafety` and `CsvShutdown` prove step by step what is kept, `CsvRuns` states the
theorems over whole runs, `CsvFinish` says how the tasks end (what makes the writer fail, why a task leaves, that
shutdown terminates without deadlock), and `CsvTasks` proves the imperative lock sections (loops over the shared table and
channel) against the steps.

**The slot recorder of `rate-latency-tool`** (`Memo`, `Ticks`, `StableSort`, `SlotRows`, `SlotRecorder`,
`SlotLoop`, `ClientRecords`, `EndToEnd`). An interleaved stream of updates feeds one recording per open slot; block metadata
closes a slot, whose transactions are sorted, given a tick by a two-pass algorithm, and sent as rows. `Ticks`
proves the two passes against the declarative meaning of a tick; `SlotRecorder` proves that slots do not
influence each other and that a slot emits exactly the window of the stream in which it was open; `SlotLoop`
refines that with recordings on the heap. `ClientRecords`, `Memo` and `EndToEnd` close the circle from the record a
client builds to the line of the file that a block gives back.

**The account creator of `tools-common`** (`AccountsCreator`). A retry loop sized by its own success so far,
against an arbitrary RPC node.

**The transfer generator of `transaction-bench`** (`PayerStream`, `TransferBatch`, `TransactionGenerator`).
Batches built in parallel from a saved cyclic payer index, each with buffers reused between transactions, shown
to be one seamless round-robin stream.

**The backpressured broadcaster** (`Broadcaster`) and **the blockhash updater** (`BlockhashUpdater`).

## How the environment appears

- Every lock section is one atomic step. `run_until_cancelled` stops the matcher and the expirer only where they
  wait, so a drain or a scan under way finishes.
- Clock readings, RPC answers, worker answers, random samples, write and flush results are inputs: step
  parameters, sequences with one element per turn, or functions from the iteration number.
- `limit` in `ExpirerScans` and `TrackerDumps` is how many rows the row channel still accepts. While the writer
  task lives it is at least the size of the table; afterwards it may be anything.
- `Enabled` for `ClientSends` says what `run_client.rs:225-254` and `run_rate_latency_tool_scheduler.rs:83-139`
  do: ids are consecutive, each record carries its timestamp, and every record built is sent before the next is
  built. Ids are modelled before their wrap-around; `ClientRecords.IdsAreDistinct` says how far that reaches.
- The state of `CsvProtocol` carries histories (`delivered`, `tracked`, `dumped`, `sent`, `refused`, `handled`)
  that no step reads. They only name the past in the theorems.
- The header row is written before any task starts; `file` holds the rows after it.
- A `None` result models a failed unwrap or assertion of the source, a Boolean `panicked` an index out of bounds.
- Sums and products do not overflow `usize` or `u64`, except where the source itself saturates or wraps
  (`PayerStream.SaturatingAdd`, `ClientRecords.IdOf`).

## Where the code and its own words differ

- The comment on the early break says the table is sorted by id "and by time". The code sorts by id only.
  `Expiry.EarlyBreakIsExact` proves that the scan equals a full filter at every clock reading if and only if
  timestamps follow ids, `Expiry.ScanIsFilter` gives the condition for one reading, and
  `CsvRuns.EveryScanIsExact` derives it from a client clock that never steps back.
  `CsvRuns.ClockStepBackHidesRecord` is a run in which the clock does step back and a scan misses a record.
- Not every sent record reaches the file. There are two ways to lose one: the tracker leaves without a dump when
  its channel closes, and cancellation makes it leave with records still in its queue. `CsvRuns.CleanEndCoverage`
  says for every record the client sent whether it has a row after a clean end;
  `CsvRuns.ClosedChannelLosesRecord` and `CsvRuns.CancellationLosesQueuedRecord` are runs of the two kinds. In the
  model the client may go on sending after the tracker has left; such records count as queued.
  `CsvRuns.LateMatchRepeatsDump` is a run that writes a transaction twice; `CsvRuns.CleanEndCounts` says how many
  rows each transaction gets.
- The writer ends only after a cancellation: closing both channels lets the matcher and the tracker go, but the
  expirer waits for its next tick (`CsvFinish.EveryTaskIsAccountable`).
- A block record is merged only if its transaction is pending at that moment. `CsvRuns.MatchedExactly` says when;
  `CsvRuns.EarlyBlockRowIsNotMatched` is a run in which the block overtakes the tracker.
- The account creator's batches are not bounded by the 64 its constant names. They are exactly when at most 64
  accounts are wanted (`AccountsCreator.LimitHoldsExactly`); the largest batch any node can bring about is known for
  every number of accounts, and is 66 from 131 accounts on (`AccountsCreator.BatchBoundsExactly`).
- "Batch size will converge to the mean rps": it settles one above the node's capacity, and only for capacities
  up to one above the limit (`AccountsCreator.BatchFollowsCapacity`, stated for all capacities).
- The broadcaster's documentation speaks of blocking on "the first worker in the list" when all channels are
  full. The code enters the blocking phase after any failures and tries the leaders in order until one accepts
  (`Broadcaster.SendsDeliverToFirst`).
- An empty transaction type is printed like an absent one, so exactly the rows with `Some("")` do not read back
  (`CsvRecords.CellsRoundTrip`). The tools never produce one.
- A transaction whose index lies beyond the attributed ticks ends the emitting task. `SlotRows.EmissionMeaning`
  says exactly when, and that no row with a tick is lost by it;
  `SlotRecorder.TransactionWithoutEntryPanics` is such a stream.
- The payer index is advanced by a saturating addition. `TransactionGenerator.StreamIsOneCycleExactly` proves that the
  batches form one seamless stream if and only if no such step saturates, or those that do drop whole cycles.

## Model

| member | source | states |
|---|---|---|
| CsvRuns.EveryRecordInOnePlace | rate-latency-tool/src/csv_writer.rs:139-249 | in every interleaving each tracked record is in exactly one place (pending, in the matcher's hand, merged into one row, expired by one scan), ids never tracked are nowhere, a pending record is the one the client sent, and no lock section unwraps a missing id or timestamp |
| CsvRuns.BlockRecordsInOrder | rate-latency-tool/src/csv_writer.rs:150-174 | block records become rows one for one in arrival order; a matched row carries the status of the record inserted under its id, an unmatched one is the record as it came |
| CsvRuns.MatchedExactly | rate-latency-tool/src/csv_writer.rs:161-167 | at every reachable take, the record is matched if and only if its transaction has been tracked and neither matched nor expired before, and the row is determined |
| CsvRuns.ChannelOrder | rate-latency-tool/src/csv_writer.rs:161-271 | rows are handled in channel order, the file is those whose write succeeded, a transaction is dumped at most once, and its dump row comes before the row that takes it out of the table |
| CsvRuns.CleanEndCounts | rate-latency-tool/src/csv_writer.rs:236-271 | when the writer ends on channel closure and no write failed, the file is everything sent: one row for leaving the table if it left, one dump row if it was pending at the dump |
| CsvRuns.CleanEndCoverage | rate-latency-tool/src/csv_writer.rs:215-271 | after a clean end a sent transaction has a row if and only if it had left the tracker's queue and either the tracker left by cancellation or the transaction had left the table |
| CsvRuns.OwnLinesReadBack | rate-latency-tool/src/csv_writer.rs:186-246 | if every record the client sends is readable, every expired or dumped row reads back as the record it sent |
| CsvRuns.EveryScanIsExact | rate-latency-tool/src/csv_writer.rs:186-209 | in every run whose client clock never steps back, each scan with the channel open writes exactly the rows a full filter selects, and every record it leaves pending was sent at most 70000 milliseconds before its tick |
| CsvRuns.ScanWhenSorted | rate-latency-tool/src/csv_writer.rs:186-209 | the same for one scan, from sent times that follow ids |
| CsvRuns.RunKeepsInv | rate-latency-tool/src/csv_writer.rs:139-271 | every step of every run keeps the joint invariant of order, conservation, channel, writer lifetime, block order and dump |
| CsvRuns.RunKeepsTimes | rate-latency-tool/src/csv_writer.rs:200-203 | a forward client clock keeps sent times nondecreasing in id over all records sent so far, tracked or not |
| CsvFinish.GoodFlushes | rate-latency-tool/src/csv_writer.rs:251-271 | if no flush of a run fails the writer has not given up, no row was refused, and once it has ended every row ever sent was offered to the file, which holds those whose write succeeded |
| CsvFinish.BadFlush | rate-latency-tool/src/csv_writer.rs:266-269 | from a failed flush on the writer handles nothing more and the file stays as it is |
| CsvFinish.FailsExactly | rate-latency-tool/src/csv_writer.rs:266-269 | the writer has failed if and only if some flush of the run failed |
| CsvFinish.EveryTaskIsAccountable | rate-latency-tool/src/csv_writer.rs:115-271 | in every run a task has left only for its reason (cancellation, or its channel closed and drained; for the expirer and the writer a cancellation), and none holds more than 16 records or 128 rows |
| CsvFinish.ClosedTrackerHasAll | rate-latency-tool/src/csv_writer.rs:222-235 | when its channel closes the tracker has inserted exactly the records the client sent |
| CsvFinish.TasksAreReady | rate-latency-tool/src/csv_writer.rs:152-156 | a waiting task can take what has arrived, up to what it reads at once, and can leave when its channel is closed and drained |
| CsvFinish.NoDeadlock | rate-latency-tool/src/csv_writer.rs:143-276 | after a cancellation the tasks are at rest if and only if all of them are over |
| CsvFinish.ShutdownTerminates | rate-latency-tool/src/csv_writer.rs:143-276 | from any reachable state the tasks take a bounded number of steps by themselves, and after a cancellation they stop only when all are over |
| CsvFinish.RunIsRemembered | rate-latency-tool/src/csv_writer.rs:152-228 | the counters, flags and histories of a reachable state are the records sent, the block records that arrived, and the closings and cancellation of the run |
| CsvRuns.ClosedChannelLosesRecord | rate-latency-tool/src/csv_writer.rs:224-227 | a run with a clean end in which a tracked record has no line in the file |
| CsvRuns.CancellationLosesQueuedRecord | rate-latency-tool/src/csv_writer.rs:221-246 | a run with a clean end by cancellation in which a sent record has no line in the file |
| CsvRuns.ClockStepBackHidesRecord | rate-latency-tool/src/csv_writer.rs:192-204 | a run with a clock stepping back that reaches a scan which leaves an old record pending |
| CsvRuns.LateMatchRepeatsDump | rate-latency-tool/src/csv_writer.rs:161-246 | a run in which a drain under way at cancellation sends a second row for a dumped record |
| CsvRuns.EarlyBlockRowIsNotMatched | rate-latency-tool/src/csv_writer.rs:161-234 | a run in which a block record overtakes its tracker record, goes out unmatched, and the transaction is expired later |
| CsvSafety.ClientOrderStep | rate-latency-tool/src/csv_writer.rs:215-235 | every step keeps: ids below the backlog are tracked, the backlog continues them, the table holds only tracked records unchanged |
| CsvSafety.ConservedStep | rate-latency-tool/src/csv_writer.rs:139-235 | every step keeps that pending plus removals equals tracked, id by id |
| CsvSafety.RowEffect | rate-latency-tool/src/csv_writer.rs:161-246 | which rows each step puts into the channel or loses |
| CsvSafety.DumpAscends | rate-latency-tool/src/csv_writer.rs:240 | a dump prints the table in id order |
| CsvSafety.ScanAscends | rate-latency-tool/src/csv_writer.rs:192-199 | a scan prints what it removes in id order |
| CsvSafety.LastInsertWins | rate-latency-tool/src/csv_writer.rs:231-234 | of several records with one id inserted together the last stays |
| CsvSafety.OtherIdsStay | rate-latency-tool/src/csv_writer.rs:231-234 | ids without a record in the batch keep theirs, or stay absent |
| CsvShutdown.FifoStep | rate-latency-tool/src/csv_writer.rs:251-271 | every step keeps that handled rows, the writer's batch and the channel concatenate to what was sent |
| CsvShutdown.WriterOutlivesSendersStep | rate-latency-tool/src/csv_writer.rs:257-271 | every step keeps: nothing is refused while the writer lives, and once it has ended normally all senders have left, the channel is empty and nothing was ever refused |
| CsvShutdown.BlockOrderStep | rate-latency-tool/src/csv_writer.rs:161-172 | every step keeps the one-for-one correspondence of block records and block rows |
| CsvShutdown.DumpedOnceStep | rate-latency-tool/src/csv_writer.rs:236-246 | every step keeps that the dump covers whatever is still pending after it, and happens once |
| CsvShutdown.DumpFirstStep | rate-latency-tool/src/csv_writer.rs:236-246 | every step keeps that dump rows precede removal rows of the same transaction |
| CsvTasks.OrderedKeys | rate-latency-tool/src/csv_writer.rs:192 | repeatedly taking the least key yields the increasing listing of the table |
| CsvTasks.CsvTasks.Take | rate-latency-tool/src/csv_writer.rs:161-167 | removing and merging under the lock is the matcher's step |
| CsvTasks.CsvTasks.SendBlockRow | rate-latency-tool/src/csv_writer.rs:169-171 | sending the merged row, or losing it, is the matcher's second step |
| CsvTasks.CsvTasks.SendOld | rate-latency-tool/src/csv_writer.rs:190-205 | the loop over the locked table sends exactly the longest prefix of old records the channel accepts |
| CsvTasks.CsvTasks.Scan | rate-latency-tool/src/csv_writer.rs:189-208 | the whole lock section of the expirer is one scan step |
| CsvTasks.CsvTasks.Insert | rate-latency-tool/src/csv_writer.rs:229-234 | draining a batch into the table is one insert step, later duplicates winning |
| CsvTasks.CsvTasks.SendPending | rate-latency-tool/src/csv_writer.rs:239-244 | the dump loop sends every pending record in id order, keeps the table, and loses exactly the rows the channel refuses |
| CsvTasks.CsvTasks.Dump | rate-latency-tool/src/csv_writer.rs:236-246 | the cancel arm is one dump step |
| CsvTasks.CsvTasks.WriteBatch | rate-latency-tool/src/csv_writer.rs:261-265 | draining a batch into the file is a run of single writes that skips failed rows and goes on |
| CsvTasks.WriteRun | rate-latency-tool/src/csv_writer.rs:261-265 | the protocol's single writes compose to the whole drained batch |
| CsvTasks.ScanIsPrefix | rate-latency-tool/src/csv_writer.rs:192-205 | the scan's result is characterised as a prefix: all old, and the next one young or refused |
| Expiry.EarlyBreakIsExact | rate-latency-tool/src/csv_writer.rs:192-208 | with the channel open, the early break equals a full filter at every clock reading if and only if sent times follow ids |
| Expiry.ScanIsFilter | rate-latency-tool/src/csv_writer.rs:192-205 | at one clock reading the scan equals a full filter if and only if no young record precedes an old one |
| Expiry.SortedScan | rate-latency-tool/src/csv_writer.rs:192-205 | on a table sorted by time the scan removes what a full filter would |
| Expiry.HiddenOldRecord | rate-latency-tool/src/csv_writer.rs:200-204 | a young record with a smaller id always hides an old one from the scan |
| Expiry.ScanWithin | rate-latency-tool/src/csv_writer.rs:195-204 | a scan removes no more than was accepted, and stops short only at a young record or a refused row |
| Listing.ListingIsUnique | rate-latency-tool/src/csv_writer.rs:139 | a set of ids has one increasing listing, the iteration order of the table |
| Expiry.OldMeaning | rate-latency-tool/src/csv_writer.rs:109-113 | a record is old once more than 70000 milliseconds have passed since it was sent |
| CsvRecords.CellsRead | rate-latency-tool/src/csv_writer.rs:71-106 | what the twelve cells of a record read back as, an empty type reading as none |
| CsvRecords.CellsRoundTrip | rate-latency-tool/src/csv_writer.rs:71-106 | that is the record itself if and only if its type is not the empty string |
| CsvRecords.StatusesRoundTrip | rate-latency-tool/src/csv_writer.rs:95-99 | the joined status list reads back entry for entry |
| CsvRecords.FileRoundTrip | rate-latency-tool/src/csv_writer.rs:126-132 | an unquoted file of plain cells reads back row by row |
| CsvRecords.RecordsRoundTrip | rate-latency-tool/src/csv_writer.rs:54-138 | header and records written to the file read back in order |
| CsvRecords.HeaderNamesColumns | rate-latency-tool/src/csv_writer.rs:54-106 | which field stands under which name of the header |
| CsvRecords.TwoRows | rate-latency-tool/src/csv_writer.rs:126-132 | how two rows of cells stand in the file |
| CsvRecords.TwoStatuses | rate-latency-tool/src/csv_writer.rs:95-99 | two statuses print with a bar between them |
| CsvRecords.StatusForms | rate-latency-tool/src/csv_writer.rs:28-35 | how each status prints with its address |
| Text.SplitJoin | rate-latency-tool/src/csv_writer.rs:99 | splitting undoes joining when no piece contains the separator |
| Text.JoinSplit | rate-latency-tool/src/yellowstone_subscriber.rs:341-342 | joining undoes splitting, and no piece contains the separator |
| Text.ParseDecimal | rate-latency-tool/src/yellowstone_subscriber.rs:344-346 | parsing undoes printing exactly for numbers the target type holds |
| Text.ParseMeaning | rate-latency-tool/src/yellowstone_subscriber.rs:344-346 | parsing accepts exactly an optional plus sign, zeros and the decimal digits of a number that fits, and gives that number |
| Memo.FirstMemoLine | rate-latency-tool/src/yellowstone_subscriber.rs:331-335 | the first memo line is found whatever surrounds it |
| Memo.ExtractMeaning | rate-latency-tool/src/yellowstone_subscriber.rs:331-335 | for every log the line extracted is its first memo line, and there is none if and only if it has none |
| Memo.MemoRoundTrip | rate-latency-tool/src/yellowstone_subscriber.rs:331-349 | out of any log whose first memo line is the client's, the printed triple is recovered, exactly when its numbers fit |
| Memo.ParseMemoExactly | rate-latency-tool/src/yellowstone_subscriber.rs:339-349 | exactly which log lines are read as a memo, and as which triple; every other line is not |
| Memo.MemoExample | rate-latency-tool/src/yellowstone_subscriber.rs:337-338 | a memo in the documented form of the log line |
| Ticks.CountPerTick | rate-latency-tool/src/yellowstone_subscriber.rs:583-601 | the first pass counts every transaction, and brackets every entry between the running sums of its tick |
| Ticks.FindTxTicks | rate-latency-tool/src/yellowstone_subscriber.rs:582-614 | the array holds one element per executed transaction: the number of zero entries before the entry that holds it |
| Ticks.AttributionIsUnique | rate-latency-tool/src/yellowstone_subscriber.rs:582-614 | that meaning determines the result completely |
| Ticks.AttributeIsAttribution | rate-latency-tool/src/yellowstone_subscriber.rs:582-614 | the entry-by-entry form has that meaning |
| Ticks.TickOccurrences | rate-latency-tool/src/yellowstone_subscriber.rs:586-601 | tick t occurs exactly as often as transactions were counted into it |
| Ticks.TicksAreMonotone | rate-latency-tool/src/yellowstone_subscriber.rs:603-613 | ticks never decrease with the index and never exceed the number of tick entries |
| Ticks.NonUniformTicks | rate-latency-tool/src/yellowstone_subscriber.rs:628-639 | ticks of different sizes, an example the source itself gives |
| Ticks.EmptyTicks | rate-latency-tool/src/yellowstone_subscriber.rs:666-678 | empty ticks and an unclosed last one, an example the source itself gives |
| StableSort.SortIsStable | rate-latency-tool/src/yellowstone_subscriber.rs:394-400 | elements with equal keys keep their order |
| StableSort.SortPermutes | rate-latency-tool/src/yellowstone_subscriber.rs:394-400 | sorting keeps the elements and their multiplicities |
| StableSort.SortSorts | rate-latency-tool/src/yellowstone_subscriber.rs:394-400 | the result is sorted, strictly if keys are distinct |
| StableSort.SortForgetsOrder | rate-latency-tool/src/yellowstone_subscriber.rs:394-400 | permutations with distinct keys sort to the same sequence |
| SlotRows.EmissionMeaning | rate-latency-tool/src/yellowstone_subscriber.rs:281-305 | a closed slot sends exactly the rows whose index has a tick, in index order, with nondecreasing ticks; the task survives if and only if no complete transaction lies beyond them |
| SlotRows.EmittedRows | rate-latency-tool/src/yellowstone_subscriber.rs:283-299 | each row sent, one by one: the records of the complete transactions within the ticks, sorted by index, with the tick of the index and the number of transactions executed |
| SlotRows.RowsAreAll | rate-latency-tool/src/yellowstone_subscriber.rs:283-299 | exactly one row for every complete transaction whose index has a tick |
| SlotRows.BuiltRecord | rate-latency-tool/src/yellowstone_subscriber.rs:446-535 | every column of the record of an update; id, slot and time are those of its first memo line, and absent together for a foreign transaction |
| SlotRows.RowsAreInRange | rate-latency-tool/src/yellowstone_subscriber.rs:283-305 | on sorted transactions the early end of the task loses no row that has a tick |
| SlotRows.PanicsBeyondTicks | rate-latency-tool/src/yellowstone_subscriber.rs:296 | the index is out of bounds for some transaction if and only if a complete one lies beyond the ticks |
| SlotRows.ArrivalOrderIsIrrelevant | rate-latency-tool/src/yellowstone_subscriber.rs:281-305 | permuting entries and transactions with distinct indices changes nothing that is sent |
| SlotRows.OwnTransactionIsRecognised | rate-latency-tool/src/yellowstone_subscriber.rs:501-518 | a transaction carrying the client's memo gets the printed id, slot and time |
| SlotRows.SlotRecording.AddTransaction | rate-latency-tool/src/yellowstone_subscriber.rs:370-381 | appends one transaction and changes nothing else |
| SlotRows.SlotRecording.AddEntryUpdate | rate-latency-tool/src/yellowstone_subscriber.rs:383-385 | appends one entry and changes nothing else |
| SlotRows.SlotRecording.CollectTicks | rate-latency-tool/src/yellowstone_subscriber.rs:387-396 | sorts the entries in place and returns their attribution |
| SlotRows.SlotRecording.EmitRows | rate-latency-tool/src/yellowstone_subscriber.rs:280-305 | the spawned task sends what the emission of its recording says, up to the index that ends it |
| SlotRecorder.SlotsAreIndependent | rate-latency-tool/src/yellowstone_subscriber.rs:183-319 | what the loop emits, discards and keeps open for a slot equals its run on that slot's events alone, in order |
| SlotRecorder.MetaEmitsWindow | rate-latency-tool/src/yellowstone_subscriber.rs:259-307 | a slot is open if and only if the stream has a window for it; closing metadata emits exactly that window's updates, and nothing otherwise |
| SlotRecorder.OnlyMetadataEmits | rate-latency-tool/src/yellowstone_subscriber.rs:252-307 | for every stream, what is emitted is exactly the windows ended by metadata, with its count, and what is discarded exactly those ended by a dead status, in order |
| SlotRecorder.ClosesOnly | rate-latency-tool/src/yellowstone_subscriber.rs:252-275 | what one event adds to the recordings emitted and discarded |
| SlotRecorder.WindowIsRecorded | rate-latency-tool/src/yellowstone_subscriber.rs:199-251 | inside a window the recording is what the stream says about the slot since it opened |
| SlotRecorder.OpenCollects | rate-latency-tool/src/yellowstone_subscriber.rs:199-251 | until something closes it an open recording collects its slot's updates in order, and a repeated open never clears it |
| SlotRecorder.OpenHasWindow | rate-latency-tool/src/yellowstone_subscriber.rs:241-255 | every open slot has a window |
| SlotRecorder.AcceptedAreKept | rate-latency-tool/src/yellowstone_subscriber.rs:199-307 | accepted transactions, in order, are those of the emitted and discarded recordings followed by the open one: none lost or repeated |
| SlotRecorder.ReorderedUpdatesSendTheSame | rate-latency-tool/src/yellowstone_subscriber.rs:183-319 | two streams that differ in the order of updates inside a window send the same rows |
| SlotRecorder.FailsOnError | rate-latency-tool/src/yellowstone_subscriber.rs:314-317 | the loop fails if and only if the stream contains an error |
| SlotRecorder.TransactionWithoutEntryPanics | rate-latency-tool/src/yellowstone_subscriber.rs:296 | a stream whose closing slot ends the emitting task |
| SlotLoop.SlotLoop.Handle | rate-latency-tool/src/yellowstone_subscriber.rs:198-312 | one message on heap-allocated recordings is one step of the machine; only the slot's own object changes |
| SlotLoop.SlotLoop.Subscribe | rate-latency-tool/src/yellowstone_subscriber.rs:183-321 | the loop computes the run of the machine up to the first error: it emits the windows ended by metadata and discards those ended by a dead status |
| SlotLoop.StopsOnError | rate-latency-tool/src/yellowstone_subscriber.rs:314-317 | what follows an error has no effect |
| ClientRecords.ClientRecords.Build | rate-latency-tool/src/run_client.rs:225-254 | the k-th call yields id k with wrap-around, payer k of the cycle, the record and the memo that carries it; it fails exactly without payers |
| ClientRecords.IdsAreDistinct | rate-latency-tool/src/run_client.rs:229-230 | the first n ids are distinct if and only if n does not exceed the range of the counter |
| ClientRecords.PayersTakeTurns | rate-latency-tool/src/run_client.rs:216-226 | transactions less than a cycle apart have different payers |
| ClientRecords.MemoMatchesRecord | rate-latency-tool/src/run_client.rs:298 | parsing the logged memo gives the id, slot and time of the record built with it |
| ClientRecords.BuiltIsReadable | rate-latency-tool/src/run_client.rs:239-252 | with a plain signature and plain addresses, what the client builds and its sends add to it is readable |
| ClientRecords.BuiltRow | rate-latency-tool/src/run_client.rs:239-252 | the twelve cells of a record as the client builds it, with its send statuses |
| EndToEnd.SentTransactionComesBack | rate-latency-tool/src/csv_writer.rs:161-171 | a transaction of the client that a block contains while its record is pending is taken for that record, and its line reads back with the client's id, slot, time and statuses and the block's columns |
| AccountsCreator.BatchBound | tools-common/src/accounts_creator.rs:225-295 | whatever the node does, a batch asks for at least one account, at most what is missing, at most the limit plus two |
| AccountsCreator.CreatedBound | tools-common/src/accounts_creator.rs:252-295 | the invariant behind it: created is below (limit + 2) times the attempts, and nothing exists before the first attempt |
| AccountsCreator.BoundIsTight | tools-common/src/accounts_creator.rs:256-295 | a node against which the loop still runs after accounts times allowed failures minus one iterations |
| AccountsCreator.BatchBoundsExactly | tools-common/src/accounts_creator.rs:225-295 | which bounds hold for every batch of every run: those not below the largest batch, given for every number of accounts |
| AccountsCreator.LimitHoldsExactly | tools-common/src/accounts_creator.rs:225-295 | the limit of 64 holds for every node if and only if at most 64 accounts are wanted, or the loop never runs |
| AccountsCreator.BatchesExceedLimit | tools-common/src/accounts_creator.rs:225-235 | its witness: batches of 65 and 66 accounts with the limit at 64 |
| AccountsCreator.StopsInTime | tools-common/src/accounts_creator.rs:256-295 | the loop stops within accounts times allowed failures iterations against any node |
| AccountsCreator.IterationBudget | tools-common/src/accounts_creator.rs:256-295 | every iteration is paid for by an account created or by the current streak of failures |
| AccountsCreator.FailuresAreIdle | tools-common/src/accounts_creator.rs:274-290 | the failure counter is the length of the current streak of iterations that created nothing |
| AccountsCreator.CapacityProgress | tools-common/src/accounts_creator.rs:225-295 | accounts and sends after k iterations against any node that lands min(batch, c) of every batch, whichever they are |
| AccountsCreator.CapacityExists | tools-common/src/accounts_creator.rs:202-221 | the node that lands the first c of every batch is one |
| AccountsCreator.BatchFollowsCapacity | tools-common/src/accounts_creator.rs:223-235 | against any node of any constant capacity c each batch after the first is min(c, limit + 1) + 1, or what is missing |
| AccountsCreator.CapacityFinishes | tools-common/src/accounts_creator.rs:256-295 | the run against any node of constant capacity stops exactly when the landings reach the number of accounts, with all of them |
| AccountsCreator.ExactNumberOfSends | tools-common/src/accounts_creator.rs:256-295 | against any node of capacity up to limit + 1 the run stops after exactly ceil(n / c) sends |
| AccountsCreator.CreateAccounts | tools-common/src/accounts_creator.rs:239-297 | the loop returns exactly the accounts whose transaction landed, batch after batch and in batch order, never more than asked for, short only after the allowed failures in a row, within the iteration bound |
| AccountsCreator.CreatedAreLanded | tools-common/src/accounts_creator.rs:252-293 | after any number of iterations the accounts are those landed in the batches sent until then, in send order |
| AccountsCreator.ConfirmedAreLanded | tools-common/src/accounts_creator.rs:202-221 | of a batch exactly the accounts whose transaction landed are kept, in batch order |
| AccountsCreator.AttemptsAreSends | tools-common/src/accounts_creator.rs:274-293 | every batch sent counts as an attempt, whether anything landed or not; a missing blockhash does not |
| AccountsCreator.BatchIsOneAboveMean | tools-common/src/accounts_creator.rs:225-235 | a batch is one above the accounts created per batch sent, rounded down, or all that is missing |
| AccountsCreator.Create | tools-common/src/accounts_creator.rs:69-88 | it fails if and only if the node fails a hundred iterations in a row before all payers exist; it returns exactly the accounts that landed, in send order, and saves them if they fall short and there are any |
| PayerStream.HalfCycleIsDisjoint | transaction-bench/src/generator/transaction_generator.rs:137-141 | any floor(L / 2) consecutive transfers touch pairwise different accounts |
| PayerStream.NoSelfTransfer | transaction-bench/src/generator/transaction_builder.rs:56-66 | sender and receiver differ if and only if there are at least two payers |
| PayerStream.CycleShares | transaction-bench/src/generator/transaction_builder.rs:56-80 | over any L consecutive transfers each payer takes part twice; with even L only even-indexed payers send |
| PayerStream.ReachedTwice | transaction-bench/src/generator/simple_transfers_generator.rs:33 | within two cycles a payer is reached at exactly two offsets, one cycle apart |
| PayerStream.SeamIsContinuous | transaction-bench/src/generator/transaction_generator.rs:139-141 | the saved index continues the cycle if and only if the addition does not saturate, or saturates by whole cycles |
| PayerStream.SavedIndexFollows | transaction-bench/src/generator/transaction_generator.rs:137-141 | every batch up to b starts where the cycle is if and only if every step of the saved index before b is continuous |
| PayerStream.BatchContinuesCycle | transaction-bench/src/generator/transaction_generator.rs:121-141 | offset i of batch b is position b times the advance plus i of the cycle |
| TransferBatch.PushTransfer | transaction-bench/src/generator/transaction_builder.rs:56-79 | what one transfer takes from the iterators and appends to the buffers, and when an unwrap fails |
| TransferBatch.CreateTransfers | transaction-bench/src/generator/transaction_builder.rs:34-85 | empty buffers give the transaction built from nothing; it fails exactly without payers or without enough amounts |
| TransferBatch.UniqueRandomNumbers | transaction-bench/src/generator/simple_transfers_generator.rs:55-65 | filling a reservoir by arbitrary choices yields distinct values in 1..=max; it fails exactly when the range is too small |
| TransferBatch.SampleExists | transaction-bench/src/generator/simple_transfers_generator.rs:56-64 | distinct values in range exist if and only if the asserted inequality holds |
| TransferBatch.GenerateBatch | transaction-bench/src/generator/simple_transfers_generator.rs:16-53 | with buffers reused, every transaction equals one built fresh, has its shape and carries the given blockhash; the exact condition for survival; the amounts are used up exactly |
| TransferBatch.TransactionShape | transaction-bench/src/generator/transaction_builder.rs:47-82 | limit first, n transfers, n signers each the sender of its transfer, fee payer the first sender, the blockhash of the batch |
| TransferBatch.BatchIsOneRun | transaction-bench/src/generator/simple_transfers_generator.rs:33-51 | the transfers of a batch are one run over the payer cycle using each amount once, in order |
| TransferBatch.AmountsInOrder | transaction-bench/src/generator/simple_transfers_generator.rs:29-51 | the k-th transfer of a batch carries the k-th amount drawn |
| TransferBatch.TransfersDiffer | transaction-bench/src/generator/simple_transfers_generator.rs:29-51 | no two transfers of a batch are equal |
| TransactionGenerator.TransactionGenerator.Spawn | transaction-bench/src/generator/transaction_generator.rs:109-144 | filling the pool starts each new worker from the index saved before it, keeps every worker accounted for, and fills the pool exactly unless there is no payer |
| TransactionGenerator.TransactionGenerator.JoinNext | transaction-bench/src/generator/transaction_generator.rs:145 | one worker moves from the pool to the joined ones, none is forgotten |
| TransactionGenerator.TransactionGenerator.Run | transaction-bench/src/generator/transaction_generator.rs:65-148 | the outcome and the number of completed turns, the number of workers spawned and joined by then, the index and blockhash each was given, and that a normal stop joins them all |
| TransactionGenerator.OutcomeMeaning | transaction-bench/src/generator/transaction_generator.rs:83-147 | for each outcome, exactly the budgets and turns that lead to it |
| TransactionGenerator.BatchCarriesBlockhash | transaction-bench/src/generator/transaction_generator.rs:107-124 | every transaction of batch b carries the blockhash of the turn that spawned worker b |
| TransactionGenerator.BudgetCoversTransactions | transaction-bench/src/generator/transaction_generator.rs:80-90 | the budget suffices if and only if the limit a transaction sets covers 150 units for each of its instructions |
| TransactionGenerator.BatchOnCycle | transaction-bench/src/generator/transaction_generator.rs:117-141 | the transfers of batch b continue the cycle where batch b - 1 left it |
| TransactionGenerator.StreamIsOneCycle | transaction-bench/src/generator/transaction_generator.rs:109-144 | in the concatenation of all batches the k-th transfer goes from payer 2k to payer 2k + 1 modulo L |
| TransactionGenerator.StreamIsOneCycleExactly | transaction-bench/src/generator/transaction_generator.rs:137-141 | that holds if and only if no step of the saved index breaks the cycle |
| TransactionGenerator.StreamIsFair | transaction-bench/src/generator/transaction_builder.rs:56-79 | among any L consecutive transfers of the stream every payer takes part twice; with even L only even-indexed payers send |
| TransactionGenerator.NearbyTransfersAreIndependent | tools-common/src/accounts_file.rs:35-37 | within floor(L / 2) of each other, no two transfers of the stream share an account, across transactions and batches |
| Broadcaster.QueueGrowth | transaction-bench/src/backpressured_broadcaster.rs:41-109 | each leader's queue grows by one batch per accepted attempt at it and by nothing else |
| Broadcaster.OnlyLastIsAccepted | transaction-bench/src/backpressured_broadcaster.rs:74-97 | the blocking phase enqueues at most once, with its last attempt |
| Broadcaster.TriesDeliver | transaction-bench/src/backpressured_broadcaster.rs:41-70 | the first phase delivers if and only if some leader cached at its turn accepts |
| Broadcaster.TriesAreAll | transaction-bench/src/backpressured_broadcaster.rs:42-63 | the first phase makes exactly one attempt per turn at which the leader's worker is cached, in leader order |
| Broadcaster.TriesEffect | transaction-bench/src/backpressured_broadcaster.rs:42-63 | every worker whose receiver was never found gone gets one batch per accepting turn, the others leave the cache |
| Broadcaster.SendsAreAll | transaction-bench/src/backpressured_broadcaster.rs:74-97 | the second phase makes one blocking send per cached turn, in order, up to the first accepted one and none after |
| Broadcaster.SendsEffect | transaction-bench/src/backpressured_broadcaster.rs:74-97 | the first accepting leader gets one batch, no other gets any, and the workers found without a receiver before it leave the cache |
| Broadcaster.SendsDeliverToFirst | transaction-bench/src/backpressured_broadcaster.rs:72-97 | the blocking phase delivers to the first leader in order that accepts, and fails only if there is none |
| Broadcaster.WorkersCache.TryAll | transaction-bench/src/backpressured_broadcaster.rs:41-63 | the first loop attempts every cached leader, counts a delivery if and only if there was one, and gives every remaining worker one batch per accepting turn |
| Broadcaster.WorkersCache.SendFirst | transaction-bench/src/backpressured_broadcaster.rs:74-97 | the second loop sends in order until one is accepted |
| Broadcaster.WorkersCache.SendToWorkers | transaction-bench/src/backpressured_broadcaster.rs:33-110 | if some cached leader accepts, every accepting one has its batch and nothing is sent blocking; otherwise the batch goes to the first leader that accepts a blocking send; the queues are exactly the replay of the attempts |
| BlockhashUpdater.PublishedNeverStutters | tools-common/src/blockhash_updater.rs:81-87 | published hashes never repeat their predecessor, the first is not the default, the last is the current one |
| BlockhashUpdater.ChangedHashesAreAll | tools-common/src/blockhash_updater.rs:81-88 | the hashes to publish are those of the turns that change the hash, each once and in order |
| BlockhashUpdater.LastHashMeaning | tools-common/src/blockhash_updater.rs:81-84 | the current hash is the last one a response brought, the default until one does |
| BlockhashUpdater.StuckMeaning | tools-common/src/blockhash_updater.rs:88-91 | a turn ends stuck if and only if more than the limit has passed since the last change, or since the start if there was none |
| BlockhashUpdater.EndIsUnique | tools-common/src/blockhash_updater.rs:77-99 | the turns allow exactly one outcome, after one number of polls |
| BlockhashUpdater.BlockhashUpdater.Run | tools-common/src/blockhash_updater.rs:74-101 | the loop ends in that way (no receiver, failed publication, or stuck, at the first turn to which one applies) and has published every changed hash but the one that failed |

## Left out

- Network clients (gRPC, RPC, QUIC, UDP), subscription requests, TLS: plumbing over libraries that are not part of this model.
- The internals of `WorkersCache`, connection eviction and `run_rate_latency_tool_scheduler`: the broadcaster is modelled over abstract queues whose worker leaves when its receiver is dropped.
- `compute_max_allowed_uni_streams`: floating point over constants of another crate.
- Command line parsing, `parse_balance`, metrics, logging and its timers (`last_error_log`), error enums, `main` functions.
- Keypairs, signatures and bincode: opaque tokens; a keypair is a number, an account created is named by its send and position.
- Account files (JSON) and `ensure_authority_balance`: `AccountsCreator.Create` starts with a sufficient balance.
- Transaction classification and the table of programs: the resulting type is an input of `BuildRecord`.
- The panic on a malformed signature or account key in an update, and a row sender that is closed while a slot is emitted.
- The quality of random sampling: choices are arbitrary inputs. The reservoir stands for `choose_multiple`, whose code is not part of this model; only that the values are distinct and in range is used.
- Scheduling fairness and wall-clock time: shutdown is shown to terminate when no new tick of the expirer comes in between; that a waiting task is scheduled at all is assumed.
- Channel capacities: the block channel is bounded in the source, unbounded here, which only adds interleavings.
- A block row that reaches the channel between two rows of one scan or dump: a scan and a dump put their rows into the channel as one group, so such a row is modelled before or after the group. A matched row's own order against the removal it made is kept, since taking and sending are separate steps.
- The writer's internal buffer: a row counts as in the file when its write succeeded, whether or not a later flush fails.
- Overflow of the product `2 * n * batch` in the generator and of the compute unit minimum in 32 bits.
- ClientRecords.MemoMatchesRecord: slot and time are taken within 64 bits, as the source's types have it.
