# Indexing engine of the stardust indexer

The service turns a stream of checkpoints into two SQLite tables, `objects` and
`expiration_unlock_conditions`, and answers owner queries over them. The second table is a cache of
a field inside the contents of the first. Nothing spans more than one database transaction: an
object and its row are committed together, a checkpoint is many commits, and the watermark from
which a restart resumes lives in another database. This project models that engine and proves what
survives failures, crashes, replays and overlap, and what the queries then return.

| file | what it holds |
|---|---|
| `Wrappers.dfy`, `Sets.dfy`, `MachineInts.dfy` | result types; a fact about set sizes; `u32`, `u64`, `i64` with Rust's casts and release-mode wrapping |
| `Models.dfy` | stored objects, decoded outputs, expiration rows and the conversions between them |
| `Store.dfy` | the two tables, the upsert transaction with rollback, the foreign key, the cascading delete |
| `Commits.dfy` | the effect of a sequence of committed transactions, one id ("cell") at a time |
| `Planning.dfy` | what a checkpoint asks of the database, and the commits it makes (`Job`) |
| `Batching.dfy` | "all upserts, then one delete" against transaction-by-transaction application |
| `Sequential.dfy` | whole runs without overlap; the last touch of an id wins |
| `Worker.dfy` | the worker class: its loops, counters, gauges and clock |
| `Interleaving.dfy` | arbitrary interleavings of the commits of several checkpoints |
| `ProgressStore.dfy` | the watermark register |
| `Pool.dfy`, `PoolConvergence.dfy` | the machine over both databases and the clock: start, read, commit, retry, finish, save, crash and restart, the two halves of a reset |
| `Handover.dfy` | the clock over whole runs, and to whom an expiring object is served as it moves |
| `Query.dfy` | the join query, its filters, pagination |
| `Responses.dfy` | decoding fetched rows; the join against decoding every object |
| `Resolution.dfy` | who a row resolves to, over all addresses |
| `Counts.dfy` | the health counts, and the insert counters over the life of a process |
| `EndToEnd.dfy` | worker calls as moves of the machine; from the checkpoint stream to the answers |
| `Witnesses.dfy` | concrete streams and runs on which the code fails to do what one would hope |

## Assumptions about the environment

- The BCS decoders are two arbitrary partial functions of the contents (`Codec`).
- Where a statement needs it, the id inside decoded contents is the id of the object
  (`IdAgrees`, `IdsAgree`). `CommitKeepsAgreementIff` shows that agreement of the tables depends on
  exactly this.
- A saved watermark is never past the first checkpoint not yet completed (`Enabled` on
  `SaveWatermark`); a restart hands out checkpoints from the watermark on, in order, to at most
  `download_queue_size` workers. The process can die at any point, between the two halves of a reset
  too, and be started again with or without the reset flag.
- Checkpoint timestamps do not decrease along the stream where a statement says so (`Sorted`), and are
  below 2^63 where it says so (`TimesFit`).
- The query has no ORDER BY: rows come in the order of some scan of the objects (`IsScan`), fixed
  while the database is unchanged, and possibly another one for another query.
- `budget` in the worker's methods is the number of transactions the database accepts before it is
  lost (a pool timeout, a locked file, a killed process); all values of it are covered.

## Where the code does not do what one would hope

- An id removed and then output again within one checkpoint is lost, because all upserts of a
  checkpoint run before its one delete. The batch is right exactly when no id is `Reborn`
  (`BatchingPreservesMeaningIff`, witness `RebornOutputIsLost`).
- Nothing orders the commits of checkpoints in flight together. A stream that can be completed ends in
  the in-order tables on every run exactly when there is one worker or checkpoints that touch the same id
  leave the same there (`PoolConvergesIff`; the same for replaying from the watermark,
  `ReplayConvergesIff`). `OvertakenCheckpointWins` is a run of two workers on two checkpoints that ends
  with the older contents of an object.
- A reset clears the objects first and the watermark second. If it is cut off in between and the process
  is then started without the reset flag, the tables are built from the watermark on: the machine keeps
  that number as `base`. A finished run has the tables of the whole stream exactly when each row stored
  below `base` is touched again at or after it (`FinishedRunConverges`, `OrderFreeJobsConverge`, witness
  `HalfResetLosesOutput`); without such a start `base` is 0 (`CompleteResetsKeepBase`).
- A shared output that is recognised but has no expiration fails its checkpoint on every attempt, so the
  watermark never passes it (`UnconvertibleOutputStopsIndexing`).
- The clock is read through a cast to `i64`. Resolution follows the ledger's rule exactly for
  timestamps below 2^63 (`ResolutionFollowsLedgerIff`).
- The clock is that of the checkpoint read last, not of the latest one. A run's clock falls exactly when it
  reads an earlier time after a later one (`ClockFallsIff`); some run of a stream with two different times
  does so as soon as there is a worker (`ClockFallsOnSomeRunIff`), and within the life of one process as
  soon as there are two (`ClockFallsInProcessIff`). An expired object is then served to its owner again
  (`HandoverTurnsBackIff`, witnesses `ReplayHandsBack` and `OverlapHandsBack`).
- The offset is computed in `u32` and wraps in the release build that the Dockerfile makes
  (`OffsetIsExactIff`, `PageIsRightIff`, witness `WrappedPageRepeats`).

The comment at src/sync/handler.rs:50-51 says the fetch starts after the stored checkpoint and the one
at src/sync/progress_store.rs:16-18 says it starts from it; the model hands out the stored number first,
which is the reading under which the assumption above leaves no gap.

## Model

| member | source | states |
|---|---|---|
| Models.Classify | src/models.rs:243-256 | an object is recognised by exactly two pairs of module and struct name, whatever package defines them |
| Models.ToStored | src/models.rs:160-180 | an object is stored exactly if it is shared and recognised, with its own id and contents, and with the type its module and struct name give |
| Models.DecodeAsIff | src/models.rs:182-202 | a stored row converts to an output of a type exactly if it has that type and the decoder of that type reads its contents |
| Models.ToExpirationIff | src/models.rs:30-83 | the derived row exists exactly if the basic decoder (for a basic row) or the NFT decoder (for an NFT row) gives an output with an expiration, and carries that output's owner, return address, seconds and id; otherwise the error says which of the two was missing |
| Models.ToExpiration | src/models.rs:30-83 | the seconds of a derived row come from a u32, so the millisecond product of the query never overflows an i64 |
| Planning.TouchesStardust | src/sync/worker.rs:52-63 | true if and only if the transaction is genesis or takes the package as an input; an error if and only if it is not genesis and its inputs cannot be read |
| Planning.Collect | src/sync/worker.rs:136-153 | collecting fails if and only if some non-genesis transaction cannot be read |
| Planning.SharedRemovals | src/sync/worker.rs:140-144 | the collected removals are exactly the ids of the shared removed objects |
| Planning.SharedOutputs | src/sync/worker.rs:145-150 | the collected rows are exactly the shared, recognised outputs, each with its classified type and at most once per output; the others are dropped without an error |
| Planning.SharedOutputsKeepOrder | src/sync/worker.rs:145-150 | the rows come in the order of the outputs |
| Planning.CollectedComesFromTransactions | src/sync/worker.rs:136-153 | both vectors hold the outputs and removals of the transactions that touch the package and nothing else |
| Planning.CreatedBy | src/sync/worker.rs:145-150 | a transaction contributes the rows of its shared, recognised outputs if it is genesis or takes the package as an input, and none otherwise |
| Planning.DeletedBy | src/sync/worker.rs:140-144 | and the ids of its shared removed objects under the same condition |
| Planning.CollectKeepsOrder | src/sync/worker.rs:136-153 | both vectors are gathered in the order of the transactions, each counting once |
| Planning.CollectOne | src/sync/worker.rs:136-153 | what a single transaction adds |
| Store.CommitKeepsAgreementIff | src/sync/worker.rs:78-96 | a committed upsert keeps the derived table in agreement if and only if the id inside the contents is the object's id |
| Store.ObjectsDb.UpsertTransaction | src/sync/worker.rs:78-96 | both rows are written, or the tables are as before and the error is the conversion's or the constraint's; no row is orphaned |
| Store.ObjectsDb.DeleteByIds | src/sync/worker.rs:115-121 | the listed objects go and their expiration rows with them, no others |
| Commits.RunIsLastTouch | src/sync/worker.rs:70-121 | after any commits an id holds the effect of the last one that touches it, or what it held before if none does |
| Commits.RunKeepsAgreement | src/sync/worker.rs:78-96 | any sequence of faithful puts and removals keeps both tables in agreement |
| Planning.JobIsFaithful | src/sync/worker.rs:75-96 | every row a checkpoint commits is the decoded row of its object |
| Planning.CompleteIff | src/sync/worker.rs:52-96 | an attempt at a checkpoint can succeed if and only if all its transactions can be read and every recognised shared output of the touching ones has an expiration to derive a row from |
| Batching.BatchingDiffersExactlyAtReborn | src/sync/worker.rs:136-167 | at each id the batch and transaction-by-transaction application differ if and only if the id is output after a removal and not removed again |
| Batching.BatchingPreservesMeaningIff | src/sync/worker.rs:136-167 | from any tables, the two give the same tables if and only if no id is reborn |
| Batching.RebornOutputIsLost | src/sync/worker.rs:136-167 | a checkpoint of two ordinary transactions whose later output the batch deletes |
| Sequential.SequentialIsStepwise | src/sync/worker.rs:129-176 | with nothing reborn, a run of checkpoints equals applying all its transactions one by one |
| Sequential.PutsAreTouchingOutputs | src/sync/worker.rs:52-63 | what such a run ever stores is exactly the shared, recognised outputs of touching transactions |
| Sequential.LastTouchWins | src/sync/worker.rs:138-167 | from an empty database, an object is stored if and only if it is the last touch of its id |
| Worker.InsertAll | src/sync/worker.rs:70-113 | a call that returns Ok put every object in, and its two counts sum to the number put in |
| Worker.InsertLeavesExactPrefix | src/sync/worker.rs:75-112 | tables equal the start state plus the first k upserts, where the k-th conversion is the first to fail or the database is lost after k; the error names which, and the failing object leaves no trace |
| Worker.ProcessCommitsPrefixOfJob | src/sync/worker.rs:129-176 | a call commits a prefix of the checkpoint's commits, returns Ok if and only if all of a complete job went through, and reports the lost database if that is what stopped it |
| Worker.CheckpointWorker.MultiInsert | src/sync/worker.rs:70-113 | the loop of transactions leaves the tables, counters and result of InsertAll |
| Worker.CheckpointWorker.UpsertAndCount | src/sync/worker.rs:76-109 | a counter moves only for a committed object, and only that of its type |
| Worker.Statics.CountIndexed | src/sync/worker.rs:98-109 | one counter grows by one, the other stays |
| Worker.CheckpointWorker.ProcessCheckpoint | src/sync/worker.rs:129-176 | tables, counters and result of the whole call; the clock moves once all transactions could be read, even if an insert then fails; the indexed gauge moves only on Ok |
| Interleaving.InterleavingEqualsSequentialIff | src/sync/handler.rs:61-69 | every interleaving of the commits of several checkpoints ends in the in-order tables if and only if checkpoints that share an id leave the same there |
| Interleaving.DisjointJobsAreOrderFree | src/sync/handler.rs:61-69 | checkpoints on pairwise disjoint ids satisfy that condition |
| ProgressStore.LoadReturnsLastSave | src/sync/progress_store.rs:33-67 | after any saves for any tasks, load gives the last number saved for its task, for every u64, or 0 |
| ProgressStore.SqliteProgressStore.Load | src/sync/progress_store.rs:33-45 | returns the number of the last save made for the task, or 0 if none was made |
| ProgressStore.SqliteProgressStore.Save | src/sync/progress_store.rs:47-67 | the save is the last one of its task from now on, the number reads back and no other task changes |
| Pool.StepKeepsInvariant | src/sync/handler.rs:61-69 | each read, commit, retry, finish and save, each crash with restart, and each half of a reset keeps the cross-database invariant while checkpoints in flight share no id |
| Pool.NoSkippedWork | src/sync/progress_store.rs:33-67 | in every reachable state an id untouched at or after the watermark has the value that in-order application from where the tables begin up to the watermark gives it |
| Pool.ReplayConverges | src/sync/progress_store.rs:16-18 | from every reachable state, the middle of a reset included, replaying from the watermark over the tables as they are gives those of one uninterrupted run from where the tables begin |
| Pool.FinishedRunConverges | src/sync/worker.rs:129-176 | once all checkpoints are done the tables are those of an uninterrupted run from where they begin, and those of the whole stream if and only if every row stored below that point is touched again after it |
| Pool.SuffixIsWholeIff | src/main.rs:126-133 | replaying a suffix of the stream from empty tables gives those of the whole stream if and only if every row stored below it is touched again |
| Pool.CompleteResetsKeepBase | src/main.rs:99-104 | unless a process is started without the reset flag in the middle of a reset, the tables always begin at checkpoint 0 |
| Pool.OneAtATimeIsDisjoint | src/sync/handler.rs:63-68 | with one worker no two checkpoints are ever in flight together |
| Pool.CrashAndReplayConverge | src/sync/worker.rs:70-121 | sequential processing ends in the tables of the whole stream through any cut-offs, retries, restarts and completed resets, with no assumption on the ids |
| Pool.IncompleteStaysInFlight | src/sync/worker.rs:86 | no run saves a watermark past a checkpoint that cannot be completed, and one worker is never handed anything after it |
| Pool.EveryStateAgrees | src/models.rs:70-83 | in every reachable state, overlapping ids or not, both tables have the same keys and each row is the decoded one |
| PoolConvergence.OrderFreeJobsConverge | src/sync/handler.rs:61-69 | order-free checkpoints converge in a pool of any size through any crashes, retries and resets, by the same condition as sequential ones |
| PoolConvergence.OrderFreeReplayConverges | src/sync/progress_store.rs:16-18 | and so does replaying them from the watermark, from every reachable state |
| PoolConvergence.OrderFreeSkipsNoWork | src/sync/progress_store.rs:33-67 | and no work of theirs is skipped across the two databases |
| PoolConvergence.PoolConvergesIff | src/sync/handler.rs:61-69 | for every stream and pool size, every finished run has the in-order tables if and only if there is at most one worker, or the checkpoints are order free, or the stream cannot be finished at all |
| PoolConvergence.ReplayConvergesIff | src/sync/progress_store.rs:16-18 | replaying from the watermark converges in every reachable state of a stream that can be completed if and only if there is at most one worker or the checkpoints are order free |
| PoolConvergence.AttemptIsMoves | src/sync/worker.rs:75-96 | an attempt of the worker is a run of commit moves of the machine |
| PoolConvergence.CrashIsAlwaysPossible | src/main.rs:99-108 | from every state a crash and restart leads to the same databases, an empty memory and the watermark as the next checkpoint |
| PoolConvergence.SaveIsPossible | src/sync/progress_store.rs:47-67 | outside a reset every number not past what was handed out nor past a checkpoint in flight can be saved and is then the watermark |
| PoolConvergence.QueueFills | src/sync/handler.rs:63-68 | as many checkpoints as there are workers can be in flight together |
| PoolConvergence.ResetIsFreshStart | src/main.rs:126-133 | a completed reset leaves empty tables and watermark 0 |
| Handover.CurrentReadIsClock | src/sync/worker.rs:155-159 | the clock is the time of the checkpoint read last by the process that lives |
| Handover.ClockFallsIff | src/sync/worker.rs:155-159 | the clock falls between two states of a run if and only if the run reads an earlier time after a later one |
| Handover.OneWorkerKeepsTime | src/sync/handler.rs:63-68 | with one worker and sorted timestamps the clock of a process never falls, nor is it unset |
| Handover.ClockFallsInProcessIff | src/sync/handler.rs:63-68 | some run of a stream makes the clock of one process fall if and only if there are two workers and two different times, or one worker and unsorted times |
| Handover.ClockFallsOnSomeRunIff | src/sync/worker.rs:155-159 | over restarts some run makes it fall if and only if there is a worker and there are two different times |
| Query.JoinMember | src/rest/routes/v1/mod.rs:37-71 | a row is returned if and only if it is joined and passes the filter |
| Query.JoinCount | src/rest/routes/v1/mod.rs:37-71 | the number of rows does not depend on the scan order |
| Query.OffsetIsExactIff | src/rest/routes/v1/mod.rs:73-78 | the u32 offset is the true one if and only if nothing wraps |
| Query.PagesTile | src/rest/routes/v1/mod.rs:73-83 | the pages up to the last needed one concatenate to the whole result, in order, no row lost or repeated |
| Query.FetchedPagesTile | src/rest/routes/v1/mod.rs:73-89 | a client that fetches those pages one by one gets the whole result of its request |
| Query.FetchedIsWindow | src/rest/routes/v1/mod.rs:73-89 | a request returns the window of its result that starts at (page - 1) * size, or at the remainder of that number modulo 2^32 if it does not fit, where the page defaults to 1 and the size to 10, each on its own |
| Query.PageIsRightIff | src/rest/routes/v1/mod.rs:73-83 | a page is the window it stands for if and only if its offset does not wrap or wraps past the end; later pages are empty |
| Query.WrappedPageRepeats | src/rest/routes/v1/mod.rs:78 | a page number whose offset wraps to the first page |
| Responses.DecodingFetchedRowsNeverFails | src/rest/routes/v1/basic.rs:47-113 | where the tables agree, decoding what was fetched succeeds, keeps length and order, and every answer carries the terms of its expiration row, which name the queried address; the one error is a missing clock |
| Responses.DecodableRowsDecode | src/rest/routes/v1/nft.rs:98-112 | rows that can each be answered are answered one for one and in order, each with the output that the decoder of its type reads |
| Responses.ToOutputsFailsIff | src/rest/routes/v1/basic.rs:97-112 | a request fails with an internal error if and only if some fetched row has another type or does not decode |
| Responses.JoinIsDecodeAndFilter | src/rest/routes/v1/mod.rs:37-71 | the join returns, in order, the rows found by decoding every object and testing its parties and its expiration in milliseconds |
| Responses.FetchedIsDecodedWindow | src/rest/routes/v1/mod.rs:25-89 | a request, resolved or not and with either, both or no parameter, returns that window of the objects found by decoding every one and testing its parties and its expiration |
| Responses.FetchedPagesAreDecoded | src/rest/routes/v1/mod.rs:25-89 | a client that asks for enough pages gets all of those objects, once and in order |
| Responses.ResolutionFollowsLedgerIff | src/rest/routes/v1/mod.rs:43-64 | the resolved filter follows the ledger's rule if and only if the timestamp is below 2^63 |
| Resolution.EveryRowHasOneHolder | src/rest/routes/v1/mod.rs:43-71 | each object of the type is in the resolved result of exactly one address, and in that address's unresolved result, whatever the clock |
| Resolution.ResolutionIsAPartition | src/rest/routes/v1/mod.rs:43-71 | the lengths of the resolved results over all holders sum to the rows of the type |
| Handover.HandoverIsOneWay | src/rest/routes/v1/mod.rs:45-64 | in the states of one process with one worker a stored object is served to its owner up to the first state whose clock has reached the expiration and to the return address in every later one |
| Handover.TurnIsARead | src/sync/worker.rs:155-159 | what brings that state about is the read of a checkpoint that has reached the expiration |
| Handover.HandoverTurnsBackIff | src/sync/worker.rs:155-159 | between two states of any run an object goes back from the return address to its owner if and only if the checkpoint read last before the first had reached the expiration and the one read last before the second had not; with one worker that takes a crash or a reset in between |
| Witnesses.ReplayHandsBack | src/sync/worker.rs:155-159 | a stream of three checkpoints and a run of one worker with a restart that serves an expired object to its owner again |
| Witnesses.OverlapHandsBack | src/sync/handler.rs:61-69 | a run of two workers on the same stream that does so without a restart |
| Witnesses.OvertakenCheckpointWins | src/sync/handler.rs:61-69 | two checkpoints that output one object with different contents, and a finished run of two workers that leaves the older contents |
| Witnesses.HalfResetLosesOutput | src/main.rs:126-133 | a checkpoint and a run with a half reset after which everything counts as done and its object is missing |
| Counts.CountsAreConserved | src/rest/routes/health.rs:34-61 | the per-type counts sum to the total and each is the size of the unfiltered join of its type |
| Counts.CountersBoundRows | src/sync/worker.rs:75-110 | rows of a type never outnumber those at the start plus the puts of the type, however ids repeat or go |
| Counts.CountersCountPuts | src/sync/worker.rs:98-109 | the counters grow by the committed puts of each type, and so bound the rows |
| Counts.CallCountsCommittedPuts | src/sync/worker.rs:98-109 | the counters of a whole call grow by exactly the puts it committed of each type: removals, failed objects and unreadable checkpoints count nothing |
| Counts.LifeCountsCommittedPuts | src/sync/worker.rs:75-176 | over the life of a process the two counters are the numbers of puts of each type committed, and the tables are those of these commits |
| Counts.CountersBoundRowsForLife | src/sync/worker.rs:75-176 | over any calls, retries, cut-offs and deletions, at the end of every insert and of every call, the rows of a type are at most those at process start plus its counter |
| EndToEnd.ReachableStatesAreServed | src/rest/routes/v1/basic.rs:89-97 | in every state the indexer can reach, every query is answered, and each answer is that of a stored object whose row names the queried address |
| EndToEnd.CallIsMoves | src/sync/worker.rs:129-176 | a call of the worker, wherever it stops, is a run of the machine's moves with the same tables, clock and result |
| EndToEnd.UnconvertibleOutputStopsIndexing | src/sync/worker.rs:86 | one recognised shared output without an expiration keeps the watermark at or below its checkpoint on every run |
| EndToEnd.AnswersAreLastOutputs | src/rest/routes/v1/mod.rs:25-89 | after a finished run of one worker, or of any number on order-free checkpoints, through any crashes and replays and any reset that lost nothing for good, the pages a client fetches hold exactly the objects that were the last touch of their id and that belong to the address: by the ledger's rule if the request is resolved, as either party if not |

## Left out

- HTTP routing, extractors, CORS, the OpenAPI document and the command line: no state of their own.
- Connection pools, prometheus, tracing, signals and graceful shutdown; a failing connection appears only as the budget of a call.
- SQLite and Diesel beyond atomic commit with rollback, upsert by primary key, the foreign key with its cascade, filter, join, limit and offset.
- `removed_objects_pre_version`, BCS and the Move object layout belong to `iota_types`, which is not part of this model; removals are input data and decoding is arbitrary.
- The reader, the queue and the retry timing of `iota-data-ingestion-core`: the machine starts, retries and crashes at any point instead. Commits of different workers interleave at the grain of one database transaction.
- The output fields that are only copied into a response (native tokens, storage deposit return, timelock, metadata, tag, sender) and the textual form of addresses; basic and NFT outputs therefore share one type and one decoding function.
- `ToSql` and `FromSql` of addresses and object types: plain round trips.
- A debug build, which panics where the offset of the release build wraps.
- A health read or a multi-page read that straddles a write: the code takes no snapshot, so the statements hold for an unchanged database.
- Responses.JoinIsDecodeAndFilter: covers resolved queries for timestamps below 2^63, beyond which ResolutionFollowsLedgerIff shows it false.
- Responses.FetchedIsDecodedWindow: has the same bound; Query.FetchedIsWindow holds for every clock.
- Responses.FetchedPagesAreDecoded: likewise.
- EndToEnd.AnswersAreLastOutputs: likewise.
- Handover.HandoverIsOneWay: has the same bound on the timestamps (`TimesFit`).
- Handover.HandoverTurnsBackIff: has it too.
- Handover.ClockFallsInProcessIff: is stated for streams whose checkpoints can all be completed; ClockFallsIff covers the runs of any stream.
- Handover.ClockFallsOnSomeRunIff: likewise.
- PoolConvergence.ReplayConvergesIff: likewise; and for streams of fewer than 2^64 checkpoints, their numbers being u64.
- The instant at which the clock exists but still reads 0, before its first store (src/sync/worker.rs:157-159).
