# Verification of the Vane UDF execution layer

Vane runs user-defined functions (UDFs) for DuckDB in local and remote workers.
This project models the parts of it whose correctness is hardest to see from any
one function, and proves what they promise over every input and every run:

- **Execution slots** (`SlotLedger.dfy`, `SlotAdmission.dfy`, `SlotRuns.dfy`,
  `SlotDesk.dfy`, `Handover.dfy`): a pool of slots, its authorities, its waiter queue
  and its wakeups. A state machine over the locked steps carries the proofs. The
  classes refine it step by step, and it refines a simple account with two queues.
- **Row streams** (`Rebatching.dfy`, `UdfOutputs.dfy`, `UdfExecutor.dfy`,
  `FlatMap.dfy`, `ScalarUdf.dfy`): the output buffer, the input batcher, whole runs of the
  map_batches executor, flat_map, and the two scalar paths.
- **Deduplication** (`DisjointSets.dfy`, `Dedupe.dfy`): LSH buckets, candidate
  pairs, union-find with path compression, and the kept and duplicate rows.
- **Video** (`VideoFrames.dfy`, `VideoRoutes.dfy`): the decoder's shared buffers,
  coalescing, path groups, and the two ways to read a limited source.
- **Errors across processes** (`TransportValues.dfy`, `ExceptionChains.dfy`,
  `ExceptionTransport.dfy`, `TransportLimits.dfy`): bounded copying of values out of
  an arbitrary, possibly cyclic object graph, the round trip of exception chains, and
  which arguments, chains and payloads are accepted.
- **Lease settlement** (`StreamSettlement.dfy`): what a task stream and its adapter
  send to the driver, to Ray and to the core worker.
- **Source tree id** (`SourceTreeId.dfy`, `GitObjects.dfy`), **callable cache**
  (`CallableCache.dfy`) and **SQL printer** (`SqlPrinter.dfy`).

`Wrappers.dfy` holds Option and Result. `Sequences.dfy` holds flattening,
chunking and removal, `Texts.dfy` the stripping of white space.
`dafny verify dfyconfig.toml` checks the whole project.

## What the code does not promise

Five natural statements fail for the code as it is. Each has a member with a concrete
input and a member with the exact condition.

- A task lease that carries no `attempt_id` is lost by `retire`: the stream is marked
  released before the key is read, so nothing is sent and nothing is deleted
  (`StreamSettlement.LeaseLostWithoutAttempt`). Every run with a terminal call settles
  exactly when the lease carries the key (`StreamSettlement.EveryRunSettlesExactlyWhen`).
- A complete admission that carries no driver is lost when its stream is built: the
  lease is handed off before the driver is first used, so the constructor raises and
  the release callback never runs (`StreamSettlement.LeaseLostWithoutDriver`). This
  happens exactly when the contract holds, the identity is there, the submission
  succeeds and the driver is missing (`StreamSettlement.StartStream`).
- When errors propagate, the scalar paths can report different errors: the row path a
  returned NULL, the vectorised path a later exception (`ScalarUdf.ErrorsDiffer`,
  `ScalarUdf.ArrowFailsWithNative`).
- With `exception_handling` set to return NULL, the vectorised scalar path turns a
  whole batch into NULLs where the row path turns one row
  (`ScalarUdf.MixedBatchDiffers`, `ScalarUdf.ArrowAgreesExactlyWhen`).
- Hits, misses and bypasses do not always equal the returned loads: a load past the
  cache is counted before it deserialises and stays counted when that fails
  (`CallableCache.BypassCountedEarly`). They
  are equal exactly when no such load is under way or has failed
  (`CallableCache.CountersMatchExactlyWhen`).

## How the pieces are represented

A table is a sequence of rows; the byte size Arrow reports for it is an arbitrary
measure. A UDF is a function of its whole call history or of a row. An Arrow
buffer is an array, so that sharing and overwriting are visible. A lock section is one
step, and an interleaving is any sequence of steps. Callbacks are reported to the
caller instead of being run, since the source runs them outside the lock. The object
graph of an exception is a heap of references. A digest is any function of fixed
length that does not collide on the objects hashed in the two trees compared.

## Model

| member | source | states |
|---|---|---|
| SlotAdmission.StepKeepsInv | duckdb/execution/udf_admission.py:105-268 | Every step (create, register, request, take, release, close authority, close pool) keeps: slots are never lost or held twice, the queue is duplicate-free and is exactly the requesting authorities, and it is non-empty only while no slot is free |
| SlotAdmission.FreshPoolOk | duckdb/execution/udf_admission.py:82-95 | A new pool with all slots available satisfies the invariant |
| SlotRuns.EveryRunConservesSlots | duckdb/execution/udf_admission.py:105-268 | After any run on a pool that is still open, available, ready and leased slots are disjoint, make up 0..max_slots-1, and count to max_slots |
| SlotRuns.GrantsAreFifo | duckdb/execution/udf_admission.py:105-145 | An authority turns from requested to ready exactly when a step frees a slot and it is first in the queue, and then the rest of the queue moves up |
| SlotRuns.StepKeepsPlace | duckdb/execution/udf_admission.py:105-145 | A waiter that still waits after a step has not moved back, and has moved up by one if the step freed a slot |
| SlotRuns.ReadyWithinFreedSlots | duckdb/execution/udf_admission.py:105-228 | A waiter at position k is ready after k+1 freed slots unless it or the pool closes |
| SlotRuns.FreeingStep | duckdb/execution/udf_admission.py:105-145 | A step that frees a slot hands exactly that slot to the first waiter and wakes it, or puts it at the back of the free slots when nobody waits, or nowhere once the pool is closed; this includes the slot of a closed ready authority |
| SlotAdmission.CloseReadyIsRetireThenAssign | duckdb/execution/udf_admission.py:129-145 | Closing a ready authority is retiring it and then assigning its slot as a release would |
| SlotRuns.StepFiresWhatIsOwed | duckdb/execution/udf_admission.py:105-166 | A step fires each callback as often as it is owed: the callback last registered by an authority, once when that authority goes from requested to ready and once when the pool closes while it is live |
| SlotRuns.NoWakeupLost | duckdb/execution/udf_admission.py:105-166 | Over every run of a new pool each callback fires as often as it is owed, where by the events alone a callback is owed only while it is its authority's last registration |
| SlotRuns.RunRemembers | duckdb/execution/udf_admission.py:206-208 | After every run each live authority holds the callback of its last registration since it was created, told from the events alone |
| SlotRuns.RequestThenTake | duckdb/execution/udf_admission.py:210-268 | A request for n bytes, once ready, is taken exactly with n bytes and under the next request number, whatever other authorities do in between |
| SlotDesk.PoolRunsAsDesk | duckdb/execution/udf_admission.py:105-268 | Every interleaving on a new pool replies and wakes exactly as an account with two queues says: requests in the order made, slots in the order they came free, each request served by the slot at its place |
| SlotDesk.PhasesAfterRun | duckdb/execution/udf_admission.py:105-268 | After every interleaving an authority is requested or ready exactly when its request stands beyond or within the free slots of that account |
| SlotDesk.StepTied | duckdb/execution/udf_admission.py:105-268 | Every step of the pool is the step of the account on the same event |
| SlotRuns.ClosedIsFinal | duckdb/execution/udf_admission.py:147-166 | After pool close no slot is available or ready again and no new lease appears in any run |
| SlotRuns.SnapshotThenTake | duckdb/execution/udf_admission.py:286-288 | A ready authority's snapshot stays takeable with the retained bytes it showed, whatever other authorities do in between |
| SlotRuns.Run | duckdb/execution/udf_admission.py:105-268 | Every legal run from a state with the invariant ends in one |
| SlotAdmission.Authority.RegisterWakeup | duckdb/execution/udf_admission.py:206-208 | Registering a callback is the register step of the state machine, which the runs above tie to the last registration, and keeps the pool valid |
| SlotAdmission.Authority.Request | duckdb/execution/udf_admission.py:210-228 | A request is the request step, with its reply or error, and keeps the pool valid |
| SlotAdmission.Authority.Take | duckdb/execution/udf_admission.py:238-268 | A take is the take step; on success it returns a fresh unreleased lease for the ready slot |
| SlotAdmission.TakeTaskAdmission | duckdb/execution/udf_admission.py:286-288 | Reading the retained bytes and taking with them succeeds exactly when the authority is ready |
| SlotAdmission.ReleaseLease | duckdb/execution/udf_admission.py:45-54 | The first release of a lease is the pool's release step; any later one changes nothing and fires nothing |
| SlotAdmission.ExecutionSlotPool.Create | duckdb/execution/udf_admission.py:82-95 | A pool is built exactly for positive slots and a prefix that is not all white space, with the prefix stripped and every slot available |
| Texts.StripsToNothing | duckdb/execution/udf_admission.py:86-88 | Stripping leaves nothing exactly of a text that is all white space |
| Texts.StripKeepsMiddle | duckdb/execution/udf_admission.py:86-88 | Stripping takes off white space only, and only at the ends |
| SlotAdmission.ExecutionSlotPool.CreateAuthority | duckdb/execution/udf_admission.py:188-199 | A new idle authority joins an open pool; exactly a closed pool refuses and is unchanged |
| SlotAdmission.ExecutionSlotPool.JoinOrBuild | duckdb/execution/udf_admission.py:172-199 | An authority joins the given pool or a fresh one built from slots and prefix; it is refused exactly for both, neither, a bad slot count or prefix, or a closed pool, each with its own error |
| SlotAdmission.ExecutionSlotPool.AssignSlotLocked | duckdb/execution/udf_admission.py:105-115 | The loop over the queue skips authorities that no longer wait and grants the slot to the first that does |
| SlotAdmission.ExecutionSlotPool.Release | duckdb/execution/udf_admission.py:117-127 | Releasing is the release step: new state and exactly its wakeups |
| SlotAdmission.ExecutionSlotPool.CloseAuthority | duckdb/execution/udf_admission.py:129-145 | Closing an authority is its step: new state and exactly its wakeups |
| SlotAdmission.ExecutionSlotPool.Close | duckdb/execution/udf_admission.py:147-166 | Closing the pool is its step: new state and exactly its wakeups |
| SlotAdmission.RetireAll | duckdb/execution/udf_admission.py:147-166 | The loop over the live authorities retires each once and collects each callback once |
| SlotLedger.OpenLedgerPartitions | duckdb/execution/udf_admission.py:82-95 | A conserved ledger of an open pool is a partition of the slot numbers |
| Handover.ReleaseHandle.Release | duckdb/execution/udf_admission.py:45-54 | The first release hands out the callback and drops it; later ones hand out nothing |
| Handover.ReleaseHandle.Handoff | duckdb/execution/udf_admission.py:56-62 | Handing off drops the callback, and fails on a released lease |
| Handover.RunHandle | duckdb/execution/udf_admission.py:45-62 | In any series of releases and handoffs the callback runs once if the first call is a release, and never otherwise |
| Rebatching.RebatchedStream | duckdb/execution/_udf_runtime.py:274-374 | For any byte measure, any appends and a flush output all rows once in order, never exceed the row target, and give one empty table exactly when all appended tables were empty |
| Rebatching.FragmentationInvariance | duckdb/execution/_udf_runtime.py:291-374 | When by the size Arrow reports every row weighs w bytes (or, for w = 1, at most one), any split of the stream gives consecutive chunks of min(target_rows, max(1, target_bytes / w)) rows |
| Rebatching.UniformSelect | duckdb/execution/_udf_runtime.py:324-352 | On rows that weigh w bytes by the size Arrow reports, the table-by-table selection takes as many rows as the bytes divided by w allow, at least one and at most the row bound |
| Rebatching.TakenWithinBytes | duckdb/execution/_udf_runtime.py:324-352 | For any reported sizes the rows taken stay within the byte target, whole tables by their size and the last one by its average share, unless a single row is taken |
| Rebatching.RowsToTakeInRange | duckdb/execution/_udf_runtime.py:324-352 | The rows to take lie between one and the buffered rows and never exceed the row target, so draining makes progress |
| Rebatching.DropRowsDrops | duckdb/execution/_udf_runtime.py:354-374 | Taking rows leaves exactly the later rows in the queue |
| Rebatching.DrainWithinRows | duckdb/execution/_udf_runtime.py:291-304 | Appending leaves fewer rows and fewer bytes than the targets in the buffer, and every emitted table within the row target |
| Rebatching.TakeRows | duckdb/execution/_udf_runtime.py:354-374 | The loop over the queue returns the first rows and leaves the rest, cutting at most one table |
| Rebatching.RuntimeOutputBuffer.Create | duckdb/execution/_udf_runtime.py:275-289 | A buffer is built exactly for targets that are absent or positive |
| Rebatching.RuntimeOutputBuffer.ShouldFlushNow | duckdb/execution/_udf_runtime.py:319-322 | The cached counts decide as the queue's true totals would |
| Rebatching.RuntimeOutputBuffer.TakeRowsForLimits | duckdb/execution/_udf_runtime.py:324-352 | The loop computes the selected row count of the current queue |
| Rebatching.RuntimeOutputBuffer.Take | duckdb/execution/_udf_runtime.py:354-374 | Taking rows returns the first rows and keeps the cached counts equal to the true totals |
| Rebatching.RuntimeOutputBuffer.Append | duckdb/execution/_udf_runtime.py:291-304 | Appending emits and keeps what the specification says, with counts equal to the true totals |
| Rebatching.RuntimeOutputBuffer.Flush | duckdb/execution/_udf_runtime.py:306-317 | Flushing emits everything left, or one empty table if only empty tables were appended |
| Rebatching.FullBatchesThenLeftover | duckdb/execution/_udf_runtime.py:386-398 | Input batching cuts the pending rows into full batches and fewer than a batch of leftover rows |
| Rebatching.RuntimeInputBatcher.Create | duckdb/execution/_udf_runtime.py:378-384 | A batcher is built exactly for a positive target |
| Rebatching.RuntimeInputBatcher.Append | duckdb/execution/_udf_runtime.py:386-394 | Appending emits the full batches of pending and new rows and keeps the leftover |
| Rebatching.RuntimeInputBatcher.Flush | duckdb/execution/_udf_runtime.py:396-398 | Flushing emits the leftover as one table, or nothing |
| Rebatching.IterTableBatches | duckdb/execution/_common.py:58-64 | Slicing a table gives chunks of the batch size whose rows are the table's, or the table itself when no size applies |
| UdfExecutor.CompletedRun | duckdb/execution/_udf_runtime.py:583-691 | Over any submits and the final finish the UDF sees every row once in order, and the queue holds the rows of every table at any depth of what it returned, from left to right, in every output mode |
| UdfOutputs.TablesAreLeaves | duckdb/execution/_udf_runtime.py:240-264 | The tables of a result of any nesting are its leaves, all of them and from left to right, told by paths |
| UdfOutputs.HoldsExactly | duckdb/execution/_udf_runtime.py:240-264 | No other list of tables is the list of leaves in order |
| UdfExecutor.DirectRun | duckdb/execution/_udf_runtime.py:583-595 | Without the input batcher each non-empty submit is computed whole, or cut into chunks of the batch size |
| UdfExecutor.ComputeBatchesIgnoreSplit | duckdb/execution/_udf_runtime.py:583-594 | With input batching the compute batches are the chunks of the whole input, whatever the submits |
| UdfExecutor.RunsIgnoreSplit | duckdb/execution/_udf_runtime.py:583-637 | Two splits of the same rows give the same calls and the same queued rows |
| UdfExecutor.EnqueuedKeepsRows | duckdb/execution/_udf_runtime.py:596-637 | Streamed, boundary-preserving and materialised output all queue exactly the returned rows |
| UdfExecutor.EnqueuedShape | duckdb/execution/_udf_runtime.py:596-637 | A round queues one table when output is not streamed, and tables within the row target when it is |
| UdfExecutor.BoundariesKept | duckdb/execution/_udf_runtime.py:596-637 | When boundaries are preserved no queued table holds rows returned for two compute batches |
| UdfExecutor.EnqueuedByRound | duckdb/execution/_udf_runtime.py:596-637 | Emitting batch by batch and closing the round gives what emitting the whole round would |
| UdfExecutor.MapBatchesExecutor.NextComputeBatches | duckdb/execution/_udf_runtime.py:583-590 | The compute batches and the rows held back are those of the specification |
| UdfExecutor.MapBatchesExecutor.Execute | duckdb/execution/_udf_runtime.py:596-637 | Executing batches calls the UDF on each once and queues what its outputs become |
| UdfExecutor.MapBatchesExecutor.Submit | duckdb/execution/_udf_runtime.py:845-856 | A submit is the submit step of the run |
| UdfExecutor.MapBatchesExecutor.FinishedSubmitting | duckdb/execution/_udf_runtime.py:870-875 | The first finish flushes the held rows through the UDF; later ones change nothing |
| UdfExecutor.MapBatchesExecutor.TakeReadyResult | duckdb/execution/_udf_runtime.py:858-863 | Results leave the queue first in, first out |
| UdfExecutor.MapBatchesExecutor.DrainOutputs | duckdb/execution/_udf_runtime.py:865-868 | Draining returns the whole queue in order and empties it |
| UdfExecutor.MapBatchesExecutor.IterSubmit | duckdb/execution/_udf_runtime.py:643-691 | Streaming a submit yields the tables that submit would enqueue; without streaming it yields the queue submit would leave |
| UdfExecutor.RunToCompletion | duckdb/execution/_udf_runtime.py:845-878 | A whole run on the classes: every row seen once in order, the queue holds the rows of all leaves returned in order, and the compute batches are chunks of the whole input for a task backend with a size above 2048, else those of each submit |
| FlatMap.YieldedRows | duckdb/execution/_udf_runtime.py:693-734 | flat_map yields all output rows once in order within the row target, and nothing exactly when there are none |
| FlatMap.YieldedChunks | duckdb/execution/_udf_runtime.py:693-734 | With uniform output rows the staging of rows is invisible: the tables are the chunks of the whole output |
| FlatMap.StagedJustReached | duckdb/execution/_udf_runtime.py:693-716 | Rows are staged until one reaches the row or byte target, each row counting at least one byte, and no longer |
| FlatMap.PresentConcat | duckdb/execution/_udf_runtime.py:718-731 | Each missing entry of an iterable result is skipped and each other kept in its place |
| FlatMap.OneInput | duckdb/execution/_udf_runtime.py:718-731 | One input row yields nothing, its one row, or the present entries |
| FlatMap.BatchingIsInvisible | duckdb/execution/_udf_runtime.py:718-734 | Splitting the input into batches does not change the output rows |
| FlatMap.FlatMapWriter.AppendRow | duckdb/execution/_udf_runtime.py:709-716 | Appending a row keeps the staged rows, their byte estimate and the emitted tables those of the rows received |
| FlatMap.FlatMapWriter.Finish | duckdb/execution/_udf_runtime.py:693-734 | Finishing has emitted exactly the specified tables of all rows received |
| FlatMap.ExecuteFlatMap | duckdb/execution/_udf_runtime.py:736-748 | The queue holds the yielded tables, or one empty table when there are no rows |
| ScalarUdf.ExecuteNative | duckdb/execution/_udf_runtime.py:756-778 | The row loop computes the row-by-row column, stopping at the first error |
| ScalarUdf.ExecuteArrow | duckdb/execution/_udf_runtime.py:780-836 | Mask, filter, batch, apply and scatter compute the vectorised column |
| ScalarUdf.BuildValidMask | duckdb/execution/_udf_runtime.py:141-151 | The mask built column by column is true exactly at rows without a NULL |
| ScalarUdf.Scatter | duckdb/execution/_udf_runtime.py:780-836 | Results land at their rows and every other row is NULL |
| ScalarUdf.ArrowRefinesNative | duckdb/execution/_udf_runtime.py:756-836 | For a row function that does not raise, both paths give the same column or the same error, for every batch size |
| ScalarUdf.ArrowFailsWithNative | duckdb/execution/_udf_runtime.py:756-836 | When errors propagate, both paths succeed on the same inputs and then agree; they fail with the same error unless, under default handling, a called row returns NULL before another raises |
| ScalarUdf.ErrorsDiffer | duckdb/execution/_udf_runtime.py:756-836 | A NULL result followed by a raising row: the row path reports the NULL, the vectorised path the exception |
| ScalarUdf.ArrowAgreesExactlyWhen | duckdb/execution/_udf_runtime.py:756-836 | When errors become NULL and some row raises, the paths agree exactly when no called row returns NULL under default handling and every raising batch is NULL throughout |
| ScalarUdf.MixedBatchDiffers | duckdb/execution/_udf_runtime.py:780-836 | A batch with one raising and one good row differs between the paths |
| ScalarUdf.NullsExactlyAtNullRows | duckdb/execution/_udf_runtime.py:756-778 | Under default handling the NULL results are exactly at the rows with a NULL input |
| ScalarUdf.NativeExactlyWhen | duckdb/execution/_udf_runtime.py:756-778 | The row path fails exactly when some called row raises without return_null or returns NULL under default handling, with the error of the first; otherwise skipped and raising rows are NULL and every other holds what was returned |
| DisjointSets.UnionFind.constructor | examples/minhash_dedupe.py:499-500 | At first every node is its own representative |
| DisjointSets.UnionFind.Find | examples/minhash_dedupe.py:502-506 | Finding returns the end of the parent chain, compresses the path to it, changes no representative and terminates as ids decrease |
| DisjointSets.UnionFind.Union | examples/minhash_dedupe.py:508-516 | Uniting merges two classes under the smaller representative and nothing else |
| DisjointSets.RepIsRoot | examples/minhash_dedupe.py:502-506 | The representatives are the ends of the parent chains, so the parent map alone determines them |
| DisjointSets.CompressionKeepsReps | examples/minhash_dedupe.py:502-506 | Pointing a node at its representative changes no representative |
| DisjointSets.UnitedAreComponents | examples/minhash_dedupe.py:508-516 | If representatives tell connected components, they still do after an edge is added and its ends united |
| DisjointSets.RepIsSmallest | examples/minhash_dedupe.py:508-516 | The representative is the smallest node of its component |
| Dedupe.CollectBuckets | examples/minhash_dedupe.py:449-459 | The buckets hold exactly the nodes of the documents whose band, read off positions band * rows_per_band onward of the signature, has the bucket's digest |
| Dedupe.AgreeExactlyWhen | examples/minhash_dedupe.py:456-459 | A band holds the same values for two documents exactly when their signatures agree in its positions |
| Dedupe.CollideExactlyWhen | examples/minhash_dedupe.py:449-459 | Two nodes share a bucket exactly when the digests of the positions of some band meet in documents of theirs |
| Dedupe.PairsConnectMembers | examples/minhash_dedupe.py:461-479 | The star of an oversized bucket connects its members as the clique does |
| Dedupe.ComponentsIgnoreBucketLimit | examples/minhash_dedupe.py:461-495 | For every max_bucket_size the emitted pairs connect exactly what colliding in a bucket connects |
| Dedupe.EmitPairs | examples/minhash_dedupe.py:463-479 | A bucket within the limit emits all ascending pairs of its members, a larger one the pairs of its smallest member with the others |
| Dedupe.LshCandidates | examples/minhash_dedupe.py:435-495 | The candidates are sorted pairs, each with its Jaccard score; with exact checking the emitted pairs missing are those below the threshold, without it none is missing |
| Dedupe.Jaccard | examples/minhash_dedupe.py:427-432 | The score times the size of the union is the size of the intersection, and two empty sets score one |
| Dedupe.ShinglesOfLastRow | examples/minhash_dedupe.py:449-455 | A node has the shingles of its last row |
| Dedupe.UniteAll | examples/minhash_dedupe.py:528-531 | Uniting all candidate pairs gives the components, and fails exactly on a pair with an unknown node |
| Dedupe.MarkedPartition | examples/minhash_dedupe.py:538-573 | Kept and duplicate rows together are the annotated rows, each once |
| Dedupe.OneKeptPerComponent | examples/minhash_dedupe.py:538-573 | With distinct nodes the kept list holds exactly one row for the component of every node |
| Dedupe.SameComponentWhenConnected | examples/minhash_dedupe.py:538-551 | Two rows name the same component exactly when their nodes are connected |
| Dedupe.AgreementSharesComponent | examples/minhash_dedupe.py:449-551 | Documents whose signatures agree in the positions of some band get the same component |
| Dedupe.BuildComponents | examples/minhash_dedupe.py:519-573 | The rows are annotated by component in order and split into kept and duplicate; with distinct nodes one row per component is kept |
| Dedupe.Deduplicate | examples/minhash_dedupe.py:435-573 | End to end without exact checking and for every max_bucket_size: components are by nodes whose digests meet in some band, documents that agree in the positions of a band share one, and with distinct nodes exactly one document per component is kept |
| VideoFrames.BatchJustCrossesTarget | duckdb/datasource/video_reader.py:447-451 | The batch size is the smallest whose bytes, three per pixel of each frame, exceed the target |
| VideoFrames.Decoder.constructor | duckdb/datasource/video_reader.py:327-350 | A decoder wants frames 0 to min(max_frames, total)-1, resized |
| VideoFrames.Decoder.EmitBatch | duckdb/datasource/video_reader.py:352-382 | A published batch shares the resized array, which is then replaced, and no published array is written |
| VideoFrames.Decoder.Next | duckdb/datasource/video_reader.py:391-405 | Each step publishes the next frames and leaves every array reachable from earlier batches unchanged |
| VideoFrames.DrainDecoder | duckdb/datasource/video_reader.py:327-408 | After a whole run every published batch still reads as when it was published, and together they are the chunks of the wanted frames |
| VideoFrames.DecodeVideo | duckdb/datasource/video_reader.py:327-424 | The batches are the wanted frames in order in chunks of the batch size |
| VideoFrames.Coalesce | duckdb/datasource/video_reader.py:454-478 | Coalescing gives tables of the target size with only the last shorter; a stream that raises leaves exactly its full tables |
| VideoFrames.SplitPathGroups | duckdb/datasource/video_reader.py:538-551 | The groups are non-empty, differ in size by at most one and concatenate to the paths; a non-positive count fails |
| VideoRoutes.Forward | duckdb/datasource/video_reader.py:645-659 | The oversized-batch slice is never needed |
| VideoRoutes.DecodeGroup | duckdb/datasource/video_reader.py:629-661 | A group yields its frames up to the remaining limit, those in front of the NULL path when it fails, and fails exactly when a NULL path is reached: the paths before its predecessor leave some of the limit |
| VideoRoutes.GroupFailsExactlyWhen | duckdb/datasource/video_reader.py:635-640 | Walking the paths, looking at each before looking at the limit, meets a NULL exactly under that condition |
| VideoRoutes.RouteRows | duckdb/datasource/video_reader.py:615-665 | The tables of the manifest route are the first frames of the whole manifest in path order up to the limit |
| VideoRoutes.FirstLimitCounts | duckdb/datasource/video_reader.py:601-605 | The first row with a frame limit decides it, a negative one read as zero |
| VideoRoutes.FramesOfFile | duckdb/datasource/video_reader.py:327-382 | Every frame of a file is one row with the base name, its position and the frame resized |
| VideoRoutes.MapManifest | duckdb/datasource/video_reader.py:615-665 | Each group's tables have its target size except the last; the route fails exactly when a row that the limit lets it reach has a NULL value or reaches a NULL path; it then has yielded every table of the rows before the first such row and the full tables of that row, and raises that row's error; what it has yielded is a prefix of the whole |
| VideoRoutes.RouteYieldsPrefix | duckdb/datasource/video_reader.py:623-665 | What is yielded before a failure is a prefix of what the manifest would yield with nothing NULL in its way, and all of it without a failure |
| VideoRoutes.RouteStops | duckdb/datasource/video_reader.py:594-665 | A failing route has yielded all tables of the rows before its first failing row, then the full tables of that row, and raises its error |
| VideoRoutes.ManifestFailsExactlyWhen | duckdb/datasource/video_reader.py:623-665 | Walking the rows fails exactly when some row fails with what the rows before it leave of the limit |
| VideoRoutes.LimitedTask | duckdb/datasource/video_reader.py:741-756 | The limited task yields the first frames of the paths in order up to the limit |
| VideoRoutes.PathGroups | duckdb/datasource/video_reader.py:554-561 | A limit gives one group, no count one group per path, a count that many balanced groups or one per path if fewer; groups are non-empty and concatenate to the paths |
| VideoRoutes.GroupingIsInvisible | duckdb/datasource/video_reader.py:564-591 | The frames of a manifest are those of the paths, however grouped |
| VideoRoutes.ReadThroughManifest | duckdb/datasource/video_reader.py:554-665 | Reading through the manifest yields the first frames up to the limit in non-empty tables of at most the batch size, and fails exactly on a non-positive task count |
| VideoRoutes.ReadBothWays | duckdb/datasource/video_reader.py:615-756 | With a limit both routes yield the same first min(limit, total) frames |
| TransportValues.CopyIsFaithful | duckdb/_ray_errors.py:87-161 | A copy that succeeds is the finite unfolding of the value |
| TransportValues.CopySucceedsExactlyWhen | duckdb/_ray_errors.py:87-161 | Copying succeeds exactly when the value unfolds to a finite tree whose nodes, leaf bytes and height are within the limits; so cycles are refused and shared parts are not |
| TransportValues.CostIs | duckdb/_ray_errors.py:94-121 | The walk charges one item per node and the bytes of the leaves, and nothing else decides whether it succeeds |
| TransportValues.CopyOfUnfolding | duckdb/_ray_errors.py:87-161 | The copy and the budget left depend only on the unfolded tree |
| TransportValues.CopyOfCopy | duckdb/_ray_errors.py:87-161 | Copying a copy gives the same tree at the same cost |
| TransportValues.CopyTransportValue | duckdb/_ray_errors.py:87-161 | The recursive walk over the shared budget and seen set computes the copy and restores the seen set |
| TransportValues.BuildIsNode | duckdb/_ray_errors.py:130-161 | Rebuilding a container from its copied parts loses no part; dictionary keys stay apart |
| ExceptionChains.Serialize | duckdb/_ray_errors.py:185-220 | A payload that is produced describes the chain link by link down to its first repeat or its length limit |
| ExceptionChains.PayloadDescribesChain | duckdb/_ray_errors.py:185-220 | The payload follows cause or context for the first 17 exceptions or up to the first repeat, and no earlier stop |
| ExceptionChains.SerializesExactlyWhen | duckdb/_ray_errors.py:185-220 | A chain is accepted exactly when every exception on its trail has a constructor, and otherwise fails as the first one that has none |
| ExceptionChains.RestoreArrived | duckdb/_ray_errors.py:234-327 | Restoring an arrived payload of legal length never hits the depth limit or the cycle check |
| ExceptionChains.SerializeThenRestore | duckdb/_ray_errors.py:185-327 | Restoring a serialised chain gives the same constructors, flags and links |
| ExceptionTransport.ConstructorRoundTrip | duckdb/_ray_errors.py:164-182 | Rebuilding from transported arguments and state gives the extracted ones, which are the sender's |
| ExceptionTransport.AcceptsExactlyWhen | duckdb/_ray_errors.py:164-182 | A reducer is accepted exactly when it is well shaped and of its own type, its arguments are a tuple, its state is missing or keyed by strings, and both are finite and together within 1024 items and 65536 bytes, each at most sixteen containers deep; it is then extracted unchanged |
| ExceptionTransport.RebuildsExactlyWhen | duckdb/_ray_errors.py:284-304 | The receiver accepts exactly the same arguments and state |
| ExceptionChains.RestoresExactlyWhen | duckdb/_ray_errors.py:234-300 | A payload is restored exactly when no path of cause and context links from it passes more than seventeen payloads and every payload on a path has an importable type and acceptable arguments, so that cycles are refused |
| TransportLimits.IntSizeIs | duckdb/_ray_errors.py:104-105 | An integer counts the fewest bytes its magnitude fits in, at least one |
| TransportLimits.TextSizeIs | duckdb/_ray_errors.py:108-111 | A text counts the bytes of its UTF-8 form |
| TransportLimits.DeepestList | duckdb/_ray_errors.py:121-122 | Sixteen nested lists are accepted and no more |
| TransportLimits.LongestList | duckdb/_ray_errors.py:94-101 | A list or tuple of None is accepted exactly up to 1023 items |
| TransportLimits.LongestBytes | duckdb/_ray_errors.py:112-117 | Bytes are accepted exactly up to 65536 |
| TransportLimits.BytesBeside | duckdb/_ray_errors.py:106-117 | Beside a float there is room for eight bytes less, beside None or a bool for one |
| TransportLimits.LongestChain | duckdb/_ray_errors.py:204-221 | Of a chain of n exceptions the first min(n, 17) are sent |
| TransportLimits.LinksSent | duckdb/_ray_errors.py:207-221 | A payload has a cause exactly when its exception does, and a context exactly when there is no cause and the context is not suppressed |
| ExceptionTransport.DeliveredArrives | duckdb/_ray_errors.py:266-327 | What serialisation accepted passes the receiver's own copying with its own limits |
| ExceptionTransport.ExceptionRoundTrip | duckdb/_ray_errors.py:164-327 | If serialisation accepts a chain, restoration succeeds and describes the same chain |
| ExceptionTransport.ChainRoundTrip | duckdb/_ray_errors.py:164-327 | From the sender's exceptions: with constructors and importable types along the trail, the restored chain has the same types, arguments, state, flags and kinds of links, one by one |
| ExceptionTransport.ChainArguments | duckdb/_ray_errors.py:164-220 | Every link carries the arguments and state of its own exception |
| StreamSettlement.StartStream | duckdb/execution/ray_stream_adapter.py:43-73 | Building a stream ends in exactly one of release (missing contract, missing identity, failed submission) and handoff; it succeeds exactly when it is handed off and there is a driver, which alone is told |
| StreamSettlement.LeaseLostWithoutDriver | duckdb/execution/ray_stream_adapter.py:68-73 | A complete admission without a driver: the constructor fails and the release callback does not run |
| StreamSettlement.RunSettles | duckdb/execution/ray_stream_adapter.py:228-317 | Every run of the adapter sends exactly the messages determined by its first release and first terminal call |
| StreamSettlement.MessagesSentOnce | duckdb/execution/ray_stream_adapter.py:98-317 | No run sends two releases, two cancels or a release after a cancel |
| StreamSettlement.LeaseSettledExactlyWhen | duckdb/execution/ray_stream_adapter.py:98-317 | After a terminal call a settlement was sent unless that call was a retire of a lease without attempt id |
| StreamSettlement.StreamDeletedExactlyWhen | duckdb/execution/ray_stream_adapter.py:236-317 | After a terminal call the stream was deleted exactly once, or never if the first call retired a lease without attempt id |
| StreamSettlement.EveryRunSettlesExactlyWhen | duckdb/execution/ray_stream_adapter.py:98-317 | All runs with a terminal call settle and delete exactly when the lease carries an attempt id |
| StreamSettlement.LeaseLostWithoutAttempt | duckdb/execution/ray_stream_adapter.py:98-108 | Without an attempt id a retire raises and a later cancel sends nothing |
| StreamSettlement.BareRun | duckdb/execution/ray_stream_adapter.py:228-317 | An adapter around a bare generator sends no lease message and deletes the stream once |
| StreamSettlement.TaskStream.Release | duckdb/execution/ray_stream_adapter.py:98-108 | The stream's release: at most one message, and a missing key raises after the flag is set |
| StreamSettlement.TaskStream.Cancel | duckdb/execution/ray_stream_adapter.py:110-124 | The stream's cancel stops the generator and tells the driver, once |
| StreamSettlement.TaskStream.RetireFailed | duckdb/execution/ray_stream_adapter.py:126-138 | As cancel, without stopping the generator |
| StreamSettlement.TaskStream.RetireLocalState | duckdb/execution/ray_stream_adapter.py:140-144 | The generator and the lease are dropped and nothing is sent |
| StreamSettlement.RayStreamAdapter.FromStream | duckdb/execution/ray_stream_adapter.py:150-186 | An adapter around a stream starts with its generator and completion reference |
| StreamSettlement.RayStreamAdapter.ReleaseTask | duckdb/execution/ray_stream_adapter.py:228-233 | Only the first release is forwarded |
| StreamSettlement.RayStreamAdapter.Retire | duckdb/execution/ray_stream_adapter.py:252-274 | Retiring releases, forgets the source and deletes the stream; a missing key ends it after the release |
| StreamSettlement.RayStreamAdapter.Cancel | duckdb/execution/ray_stream_adapter.py:276-293 | Cancelling stops the work, forgets the source and deletes the stream |
| StreamSettlement.RayStreamAdapter.RetireFailed | duckdb/execution/ray_stream_adapter.py:295-317 | As cancel, leaving the ending work alone |
| StreamSettlement.RayStreamAdapter.PerformAll | duckdb/execution/ray_stream_adapter.py:228-317 | Any series of calls leaves journal and adapter as the state machine says |
| StreamSettlement.SettleTask | duckdb/execution/ray_stream_adapter.py:43-317 | From a fresh admission to the end of any series of calls: the release callback and silence, or a handoff and, with a driver, one submission message and the settlement |
| StreamSettlement.SettleBare | duckdb/execution/ray_stream_adapter.py:150-317 | Any series of calls on an adapter around a bare generator sends what BareRun says |
| SourceTreeId.TreeHash | scripts/sync_duckdb_source_id.py:142-166 | The walk computes the tree id, and fails with the first fault exactly when some node is of an unsupported type or changed size |
| GitObjects.IdIsGits | scripts/sync_duckdb_source_id.py:122-166 | The id is exactly the one told by bytes and positions: for a file or link the hash of its blob, for a directory the hash of its entries in bytewise order of names with a slash after those of directories, each with its mode, name and id, behind a header with the length in decimal |
| GitObjects.BelowExactly | scripts/sync_duckdb_source_id.py:165-165 | The order is that of the first differing byte, a proper prefix first |
| GitObjects.ObjectIs | scripts/sync_duckdb_source_id.py:122-126 | A header is the kind, a space and the one decimal form of the length |
| SourceTreeId.FileHash | scripts/sync_duckdb_source_id.py:129-139 | Reading in pieces hashes the whole blob, and fails exactly when the size changed |
| SourceTreeId.ListingOrderIrrelevant | scripts/sync_duckdb_source_id.py:142-166 | Listing a directory in another order gives the same id |
| SourceTreeId.SameTreesSameId | scripts/sync_duckdb_source_id.py:142-166 | Trees that agree on names, modes, targets and contents at every depth have the same id |
| SourceTreeId.ReadLines | scripts/sync_duckdb_source_id.py:163-165 | The concatenated entries can be read back in one way only |
| SourceTreeId.SameIdSameTrees | scripts/sync_duckdb_source_id.py:122-166 | Nodes of equal mode and id agree at every depth, if the digest does not collide on their objects |
| SourceTreeId.IdsAgreeExactlyWhenTreesDo | scripts/sync_duckdb_source_id.py:122-166 | Two directories have the same id exactly when they agree at every depth |
| CallableCache.EveryInterleaving | duckdb/execution/_common.py:148-180 | In every interleaving of loads the cache stays within capacity and holds exactly the keys last returned through it in recency order; every callable comes from its own pickle; a load of such a key returns the object returned before; hits, misses and bypasses count the loads that by the returns before them are so |
| CallableCache.DefaultCache | duckdb/execution/_common.py:154-180 | Without a given size the cache holds the last 64 keys returned through it |
| CallableCache.LoadReturns | duckdb/execution/_common.py:148-180 | A load whose pickle deserialises returns, whatever other threads do between its steps |
| CallableCache.RunKeepsInv | duckdb/execution/_common.py:148-180 | Every step of every load keeps that invariant from any state that has it |
| CallableCache.CountersMatchExactlyWhen | duckdb/execution/_common.py:148-180 | Hits, misses and bypasses equal the returned loads exactly when no load past the cache is still deserialising or has failed |
| CallableCache.BypassCountedEarly | duckdb/execution/_common.py:150-153 | A load with side effects is counted before anything is returned, and stays counted when it fails and nothing is under way |
| CallableCache.TouchMovesToEnd | duckdb/execution/_common.py:163-167 | A touch moves its key to the end of the recency order and keeps the order of the rest |
| CallableCache.ReturnedIsMostRecent | duckdb/execution/_common.py:169-180 | What a storing load returns is the most recent slot, also when another load stored first |
| CallableCache.CallableLru.Lookup | duckdb/execution/_common.py:162-167 | The first look under the lock is the lookup step |
| CallableCache.CallableLru.Insert | duckdb/execution/_common.py:170-180 | The second look, insertion and eviction loop are the store step |
| CallableCache.CallableLru.Load | duckdb/execution/_common.py:148-180 | A load with nobody else at the cache is its three steps in a row: it returns the cached object or its own, and one with side effects or a non-positive size leaves the cache alone |
| SqlPrinter.PrintsErased | duckdb/polars_io.py:81-188 | Printing succeeds exactly on supported trees, and the text depends only on the tree without its Literal, Dyn and Cast wrappers |
| SqlPrinter.ReadDoubled | duckdb/polars_io.py:70-78 | A name with any quotes in it is read back from its escaped form |
| SqlPrinter.ReadsShown | duckdb/polars_io.py:101-163 | The reader recovers an expression from its text and leaves what follows |
| SqlPrinter.ReadsPrinted | duckdb/polars_io.py:101-163 | The reader recovers every printed tree, wrappers aside |
| SqlPrinter.PrintsAlikeExactlyWhen | duckdb/polars_io.py:101-163 | Two trees print alike exactly when they are equal without wrappers |

## Left out

- SlotAdmission.Authority.Take: the lease id comes from the caller and is not one of the active ids; the source draws a random one.
- ExceptionChains.Serialize: models the shared seen set and budget of the recursion as arguments and results rather than updated in place.
- SourceTreeId.TreeHash: the hash is a parameter; the choice between SHA-1 and SHA-256 and the paths in error messages are not modelled.
- SqlPrinter.PrintsErased: Int nodes that carry a string, and Float, Scalar and string nodes, count as unsupported; their text depends on library rendering.
- Dedupe.LshCandidates: the bucket report rows and the block ids of a candidate are not modelled.
- Dedupe.BuildComponents: the cluster report rows, which repeat the component of each row, are not modelled.
- StreamSettlement.RayStreamAdapter.FromStream: the capability checks on the Ray module and the generator, which raise before there is an adapter, are not modelled.
- Failures of the driver, of Ray or of the core worker inside a settlement call.
- Exceptions raised by a UDF partway through a map_batches or flat_map run, and generators abandoned before they are drained.
- Row-preserving map_batches output, schema promotion, Arrow concatenation failures and real byte sizes of tables.
- MinHash signatures, the choice of bands, and floating-point rounding of Jaccard scores, which are exact reals here.
- Message and traceback truncation, type lookup details and payload type checks of remote exceptions.
- Clearing the callable cache and the per-mode load statistics.
- Memory waiting, the decode semaphore, timing logs and environment parsing.
- Ray actor pools, type mapping tables, benchmarks and command-line drivers.
