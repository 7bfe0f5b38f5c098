/**
  The in-process executor for `map_batches` UDFs: how submitted tables become
  compute batches, and how the tables the UDF returns become queued results.

  The UDF is an arbitrary function of the batch and of every batch it was
  called with before, so stateful callables are covered.
*/
module UdfExecutor {
  import opened Wrappers
  import opened Sequences
  import opened Rebatching
  import opened UdfOutputs

  // DuckDB's standard vector size.
  const BATCH_SIZE := 2048

  type Udf<!In, !Out> = (seq<Table<In>>, Table<In>) -> UdfOutput<Out>

  datatype Config<!Row> = Config(
    streamOutput: bool,
    preserveBoundaries: bool,
    prebatched: bool,
    taskBackend: bool,
    batchSize: Option<int>,
    limits: Limits<Row>)
  {
    predicate Ok() {
      limits.Ok() && (batchSize.Some? ==> batchSize.value > 0)
    }

    // Whether rows are collected across submits into full compute batches.
    predicate Batching() {
      taskBackend && !prebatched && batchSize.Some? && batchSize.value > BATCH_SIZE
    }
  }

  // ----- Specification ------------------------------------------------------

  // The tables returned for each of a series of calls.
  ghost function Returned<In, Out>(udf: Udf<In, Out>, history: seq<Table<In>>,
                                   batches: seq<Table<In>>): seq<seq<Table<Out>>>
    decreases |batches|
  {
    if batches == [] then []
    else [OutputTables(udf(history, batches[0]))] + Returned(udf, history + [batches[0]], batches[1..])
  }

  ghost function RebatchedEach<Row>(l: Limits<Row>, perBatch: seq<seq<Table<Row>>>): seq<Table<Row>>
    requires l.Ok()
  {
    if perBatch == [] then [] else Rebatched(l, perBatch[0]) + RebatchedEach(l, perBatch[1..])
  }

  // What one round of compute batches adds to the result queue.
  ghost function Enqueued<Row>(c: Config<Row>, perBatch: seq<seq<Table<Row>>>): seq<Table<Row>>
    requires c.Ok()
  {
    var tables := Flatten(perBatch);
    if !c.streamOutput && tables != [] then [Flatten(tables)]
    else
      var streamed :=
        if !c.streamOutput then []
        else if c.preserveBoundaries then RebatchedEach(c.limits, perBatch)
        else Rebatched(c.limits, tables);
      streamed + (if perBatch != [] && tables == [] then [[]] else [])
  }

  datatype Compute<Row> = Compute(batches: seq<Table<Row>>, pending: seq<Row>)

  ghost function ComputeBatches<In, Out>(c: Config<Out>, pending: seq<In>, args: Table<In>): Compute<In>
    requires c.Ok()
  {
    if c.prebatched then Compute([args], pending)
    else if c.Batching() then
      Compute(FullBatches(pending + args, c.batchSize.value), Leftover(pending + args, c.batchSize.value))
    else Compute(TableBatches(args, c.batchSize), pending)
  }

  datatype State<In, Out> = State(
    pending: seq<In>,
    history: seq<Table<In>>,
    queue: seq<Table<Out>>)

  ghost function Performed<In, Out>(c: Config<Out>, udf: Udf<In, Out>, s: State<In, Out>,
                                    k: Compute<In>): State<In, Out>
    requires c.Ok()
  {
    State(k.pending, s.history + k.batches, s.queue + Enqueued(c, Returned(udf, s.history, k.batches)))
  }

  ghost function Submitted<In, Out>(c: Config<Out>, udf: Udf<In, Out>, s: State<In, Out>,
                                    args: Table<In>): State<In, Out>
    requires c.Ok()
  {
    if args == [] then s else Performed(c, udf, s, ComputeBatches(c, s.pending, args))
  }

  ghost function SubmittedAll<In, Out>(c: Config<Out>, udf: Udf<In, Out>, s: State<In, Out>,
                                       inputs: seq<Table<In>>): State<In, Out>
    requires c.Ok()
    decreases |inputs|
  {
    if inputs == [] then s else SubmittedAll(c, udf, Submitted(c, udf, s, inputs[0]), inputs[1..])
  }

  ghost function Finished<In, Out>(c: Config<Out>, udf: Udf<In, Out>, s: State<In, Out>): State<In, Out>
    requires c.Ok()
  {
    Performed(c, udf, s, Compute(if s.pending == [] then [] else [s.pending], []))
  }

  // A whole run: submits, then the end of input.
  ghost function Completed<In, Out>(c: Config<Out>, udf: Udf<In, Out>, inputs: seq<Table<In>>): State<In, Out>
    requires c.Ok()
  {
    Finished(c, udf, SubmittedAll(c, udf, State([], [], []), inputs))
  }

  // ----- Whole-run properties -----------------------------------------------

  lemma {:induction false} ReturnedConcat<In, Out>(udf: Udf<In, Out>, h: seq<Table<In>>, a: seq<Table<In>>,
                                                   b: seq<Table<In>>)
    ensures Returned(udf, h, a + b) == Returned(udf, h, a) + Returned(udf, h + a, b)
    decreases |a|
  {
    if a == [] {
      assert a + b == b && h + a == h;
    } else {
      assert (a + b)[1..] == a[1..] + b;
      assert (h + [a[0]]) + a[1..] == h + a;
      ReturnedConcat(udf, h + [a[0]], a[1..], b);
    }
  }

  lemma {:induction false} RebatchedEachKeepsRows<Row>(l: Limits<Row>, perBatch: seq<seq<Table<Row>>>)
    requires l.Ok()
    ensures Flatten(RebatchedEach(l, perBatch)) == Flatten(Flatten(perBatch))
  {
    if perBatch != [] {
      RebatchedStream(l, perBatch[0]);
      RebatchedEachKeepsRows(l, perBatch[1..]);
      FlattenConcat(Rebatched(l, perBatch[0]), RebatchedEach(l, perBatch[1..]));
      FlattenConcat(perBatch[0], Flatten(perBatch[1..]));
    }
  }

  // Whichever output path is configured, no returned row is lost, repeated or
  // reordered on the way to the queue.
  lemma {:induction false} EnqueuedKeepsRows<Row>(c: Config<Row>, perBatch: seq<seq<Table<Row>>>)
    requires c.Ok()
    ensures Flatten(Enqueued(c, perBatch)) == Flatten(Flatten(perBatch))
  {
    var tables := Flatten(perBatch);
    if !c.streamOutput && tables != [] {
      FlattenOne(Flatten(tables));
    } else {
      RebatchedEachKeepsRows(c.limits, perBatch);
      RebatchedStream(c.limits, tables);
      var streamed :=
        if !c.streamOutput then []
        else if c.preserveBoundaries then RebatchedEach(c.limits, perBatch)
        else Rebatched(c.limits, tables);
      FlattenSnoc(streamed, []);
      assert streamed + [] == streamed;
    }
  }

  // No table is longer than the row target.
  ghost predicate Short<Row>(l: Limits<Row>, tables: seq<Table<Row>>) {
    forall i :: 0 <= i < |tables| && l.rows.Some? ==> |tables[i]| <= l.rows.value
  }

  lemma {:induction false} RebatchedShort<Row>(l: Limits<Row>, ts: seq<Table<Row>>)
    requires l.Ok()
    ensures Short(l, Rebatched(l, ts))
  {
    RebatchedStream(l, ts);
  }

  lemma {:induction false} RebatchedEachShort<Row>(l: Limits<Row>, perBatch: seq<seq<Table<Row>>>)
    requires l.Ok()
    ensures Short(l, RebatchedEach(l, perBatch))
  {
    if perBatch != [] {
      RebatchedShort(l, perBatch[0]);
      RebatchedEachShort(l, perBatch[1..]);
    }
  }

  /** Without streaming a round queues one table; with it, tables within the row
      target. */
  lemma {:induction false} EnqueuedShape<Row>(c: Config<Row>, perBatch: seq<seq<Table<Row>>>)
    requires c.Ok()
    ensures !c.streamOutput ==> |Enqueued(c, perBatch)| == if perBatch == [] then 0 else 1
    ensures c.streamOutput ==> Short(c.limits, Enqueued(c, perBatch))
  {
    RebatchedEachShort(c.limits, perBatch);
    RebatchedShort(c.limits, Flatten(perBatch));
  }

  lemma {:induction false} EachApart<Row>(l: Limits<Row>, perBatch: seq<seq<Table<Row>>>)
    returns (parts: seq<seq<Table<Row>>>)
    requires l.Ok()
    ensures RebatchedEach(l, perBatch) == Flatten(parts) && |parts| == |perBatch|
    ensures forall i :: 0 <= i < |parts| ==> Flatten(parts[i]) == Flatten(perBatch[i])
  {
    parts := [];
    if perBatch != [] {
      var rest := EachApart(l, perBatch[1..]);
      RebatchedStream(l, perBatch[0]);
      FlattenCons(Rebatched(l, perBatch[0]), rest);
      parts := [Rebatched(l, perBatch[0])] + rest;
    }
  }

  /** When compute batches are kept apart, no queued table holds rows returned for
      two of them. */
  lemma {:induction false} BoundariesKept<Row>(c: Config<Row>, perBatch: seq<seq<Table<Row>>>)
    returns (parts: seq<seq<Table<Row>>>)
    requires c.Ok() && c.streamOutput && c.preserveBoundaries && Flatten(perBatch) != []
    ensures Enqueued(c, perBatch) == Flatten(parts) && |parts| == |perBatch|
    ensures forall i :: 0 <= i < |parts| ==> Flatten(parts[i]) == Flatten(perBatch[i])
  {
    parts := EachApart(c.limits, perBatch);
    assert RebatchedEach(c.limits, perBatch) + [] == RebatchedEach(c.limits, perBatch);
  }

  // Every row the UDF returned is in the queue, in call order.
  ghost predicate QueueHoldsReturned<In, Out>(udf: Udf<In, Out>, s: State<In, Out>) {
    Flatten(s.queue) == Flatten(Flatten(Returned(udf, [], s.history)))
  }

  // The rows of the queue are the rows of all leaves of what the UDF returned,
  // call by call and from left to right.
  ghost predicate QueueHoldsLeaves<In, Out>(udf: Udf<In, Out>, history: seq<Table<In>>, queue: seq<Table<Out>>) {
    var perCall := Returned(udf, [], history);
    LeavesOfCalls(udf, history, perCall) && Flatten(queue) == Flatten(Flatten(perCall))
  }

  ghost predicate LeavesOfCalls<In, Out>(udf: Udf<In, Out>, history: seq<Table<In>>, perCall: seq<seq<Table<Out>>>) {
    |perCall| == |history| && forall i :: 0 <= i < |history| ==> Holds(udf(history[..i], history[i]), perCall[i])
  }

  lemma {:induction false} ReturnedLeaf<In, Out>(udf: Udf<In, Out>, before: seq<Table<In>>, batches: seq<Table<In>>,
                                                 i: nat)
    requires i < |batches|
    ensures |Returned(udf, before, batches)| == |batches|
    ensures Holds(udf(before + batches[..i], batches[i]), Returned(udf, before, batches)[i])
    decreases |batches|
  {
    var rest := before + [batches[0]];
    if i == 0 {
      HoldsExactly(udf(before, batches[0]), OutputTables(udf(before, batches[0])));
      assert before + batches[..0] == before;
      if |batches| > 1 {
        ReturnedLeaf(udf, rest, batches[1..], 0);
      }
    } else {
      ReturnedLeaf(udf, rest, batches[1..], i - 1);
      assert rest + batches[1..][..i - 1] == before + batches[..i];
    }
  }

  lemma {:induction false} QueueLeaves<In, Out>(udf: Udf<In, Out>, s: State<In, Out>)
    requires QueueHoldsReturned(udf, s)
    ensures QueueHoldsLeaves(udf, s.history, s.queue)
  {
    var perCall := Returned(udf, [], s.history);
    forall i | 0 <= i < |s.history|
      ensures |perCall| == |s.history| && Holds(udf(s.history[..i], s.history[i]), perCall[i])
    {
      ReturnedLeaf(udf, [], s.history, i);
      assert [] + s.history[..i] == s.history[..i];
    }
    assert LeavesOfCalls(udf, s.history, perCall);
  }

  lemma {:induction false} PerformedKeepsQueue<In, Out>(c: Config<Out>, udf: Udf<In, Out>, s: State<In, Out>,
                                                        k: Compute<In>)
    requires c.Ok() && QueueHoldsReturned(udf, s)
    ensures QueueHoldsReturned(udf, Performed(c, udf, s, k))
  {
    var old', new' := Returned(udf, [], s.history), Returned(udf, s.history, k.batches);
    ReturnedConcat(udf, [], s.history, k.batches);
    assert [] + s.history == s.history;
    EnqueuedKeepsRows(c, new');
    FlattenConcat(s.queue, Enqueued(c, new'));
    FlattenConcat(old', new');
    FlattenConcat(Flatten(old'), Flatten(new'));
  }

  // What is not yet computed is pending, and only the batcher defers rows.
  ghost predicate InputAccounted<In, Out>(c: Config<Out>, s: State<In, Out>, rows: seq<In>) {
    && Flatten(s.history) + s.pending == rows
    && (!c.Batching() ==> s.pending == [])
    && (c.Batching() ==> |s.pending| < c.batchSize.value && AllFull(s.history, c.batchSize.value))
  }

  lemma {:induction false} SubmittedAccounts<In, Out>(c: Config<Out>, udf: Udf<In, Out>, s: State<In, Out>,
                                                      rows: seq<In>, args: Table<In>)
    requires c.Ok() && InputAccounted(c, s, rows)
    ensures InputAccounted(c, Submitted(c, udf, s, args), rows + args)
  {
    if args == [] {
      assert rows + args == rows;
    } else {
      var k := ComputeBatches(c, s.pending, args);
      FlattenConcat(s.history, k.batches);
      assert Flatten(k.batches) + k.pending == s.pending + args by {
        if c.Batching() {
          FullBatchesThenLeftover(s.pending + args, c.batchSize.value);
        } else {
          FlattenOne(args);
          if !c.prebatched && c.batchSize.Some? {
            ChunksCut(args, c.batchSize.value);
          }
        }
      }
      if c.Batching() {
        FullBatchesThenLeftover(s.pending + args, c.batchSize.value);
      }
      Reassociate(Flatten(s.history), Flatten(k.batches), k.pending, s.pending, args);
    }
  }

  lemma {:induction false} SubmittedAllAccounts<In, Out>(c: Config<Out>, udf: Udf<In, Out>, s: State<In, Out>,
                                                         rows: seq<In>, inputs: seq<Table<In>>)
    requires c.Ok() && InputAccounted(c, s, rows)
    ensures InputAccounted(c, SubmittedAll(c, udf, s, inputs), rows + Flatten(inputs))
    decreases |inputs|
  {
    if inputs == [] {
      assert rows + Flatten(inputs) == rows;
    } else {
      SubmittedAccounts(c, udf, s, rows, inputs[0]);
      SubmittedAllAccounts(c, udf, Submitted(c, udf, s, inputs[0]), rows + inputs[0], inputs[1..]);
      Assoc(rows, inputs[0], Flatten(inputs[1..]));
    }
  }

  lemma {:induction false} SubmittedAllKeepsQueue<In, Out>(c: Config<Out>, udf: Udf<In, Out>, s: State<In, Out>,
                                                           inputs: seq<Table<In>>)
    requires c.Ok() && QueueHoldsReturned(udf, s)
    ensures QueueHoldsReturned(udf, SubmittedAll(c, udf, s, inputs))
    decreases |inputs|
  {
    if inputs != [] {
      if inputs[0] != [] {
        PerformedKeepsQueue(c, udf, s, ComputeBatches(c, s.pending, inputs[0]));
      }
      SubmittedAllKeepsQueue(c, udf, Submitted(c, udf, s, inputs[0]), inputs[1..]);
    }
  }

  /** Over any series of submits and the end of input, the UDF sees every input
      row exactly once and in order, and the queue holds exactly the rows of the
      tables it returned at any nesting, whichever output path is configured. */
  lemma {:induction false} CompletedRun<In, Out>(c: Config<Out>, udf: Udf<In, Out>, inputs: seq<Table<In>>)
    requires c.Ok()
    ensures Flatten(Completed(c, udf, inputs).history) == Flatten(inputs)
    ensures QueueHoldsReturned(udf, Completed(c, udf, inputs))
    ensures QueueHoldsLeaves(udf, Completed(c, udf, inputs).history, Completed(c, udf, inputs).queue)
  {
    var s0: State<In, Out> := State([], [], []);
    var s := SubmittedAll(c, udf, s0, inputs);
    SubmittedAllAccounts(c, udf, s0, [], inputs);
    SubmittedAllKeepsQueue(c, udf, s0, inputs);
    assert [] + Flatten(inputs) == Flatten(inputs);
    var last := if s.pending == [] then [] else [s.pending];
    PerformedKeepsQueue(c, udf, s, Compute(last, []));
    FlattenConcat(s.history, last);
    FlattenOne(s.pending);
    QueueLeaves(udf, Completed(c, udf, inputs));
  }

  /** With the input batcher active, the compute batches are the input rows cut
      into full batches and a last short one, however the rows were spread over
      submits. */
  lemma {:induction false} ComputeBatchesIgnoreSplit<In, Out>(c: Config<Out>, udf: Udf<In, Out>, inputs: seq<Table<In>>)
    requires c.Ok() && c.Batching()
    ensures Completed(c, udf, inputs).history == Chunks(Flatten(inputs), c.batchSize.value)
  {
    var s0: State<In, Out> := State([], [], []);
    var s := SubmittedAll(c, udf, s0, inputs);
    SubmittedAllAccounts(c, udf, s0, [], inputs);
    var h := Completed(c, udf, inputs).history;
    assert ChunksOf(h, c.batchSize.value);
    CompletedRun(c, udf, inputs);
    ChunksUnique(h, c.batchSize.value);
  }

  ghost function NonEmpty<Row>(inputs: seq<Table<Row>>): seq<Table<Row>> {
    if inputs == [] then [] else (if inputs[0] == [] then [] else [inputs[0]]) + NonEmpty(inputs[1..])
  }

  // Each input cut into batches of at most n rows.
  ghost function ChunksOfEach<Row>(inputs: seq<Table<Row>>, n: nat): seq<Table<Row>>
    requires n > 0
  {
    if inputs == [] then [] else Chunks(inputs[0], n) + ChunksOfEach(inputs[1..], n)
  }

  // The batches the UDF is called with when no rows wait for later submits.
  ghost function DirectBatches<In, Out>(c: Config<Out>, inputs: seq<Table<In>>): seq<Table<In>>
    requires c.Ok()
  {
    if c.prebatched || c.batchSize == None then NonEmpty(inputs) else ChunksOfEach(inputs, c.batchSize.value)
  }

  lemma {:induction false} DirectHistory<In, Out>(c: Config<Out>, udf: Udf<In, Out>, s: State<In, Out>,
                                                  inputs: seq<Table<In>>)
    requires c.Ok() && !c.Batching() && s.pending == []
    ensures var t := SubmittedAll(c, udf, s, inputs);
            t.pending == [] && t.history == s.history + DirectBatches(c, inputs)
    decreases |inputs|
  {
    if inputs == [] {
      assert s.history + [] == s.history;
    } else {
      var next, now := Submitted(c, udf, s, inputs[0]), DirectBatches(c, [inputs[0]]);
      DirectOne(c, udf, s, inputs[0]);
      DirectHistory(c, udf, next, inputs[1..]);
      Assoc(s.history, now, DirectBatches(c, inputs[1..]));
      DirectCons(c, inputs);
    }
  }

  lemma {:induction false} DirectCons<In, Out>(c: Config<Out>, inputs: seq<Table<In>>)
    requires c.Ok() && inputs != []
    ensures DirectBatches(c, inputs) == DirectBatches(c, [inputs[0]]) + DirectBatches(c, inputs[1..])
  {
    var one := [inputs[0]];
    assert one[1..] == [] && NonEmpty<In>([]) == [];
    if c.batchSize.Some? {
      var first := Chunks(inputs[0], c.batchSize.value);
      assert ChunksOfEach(one, c.batchSize.value) == first + [] == first;
    }
  }

  lemma {:induction false} DirectOne<In, Out>(c: Config<Out>, udf: Udf<In, Out>, s: State<In, Out>, t: Table<In>)
    requires c.Ok() && !c.Batching() && s.pending == []
    ensures Submitted(c, udf, s, t).history == s.history + DirectBatches(c, [t])
    ensures Submitted(c, udf, s, t).pending == []
  {
    assert [t][1..] == [] && NonEmpty<In>([]) == [] && s.history + [] == s.history;
    if c.batchSize.Some? {
      var n := c.batchSize.value;
      assert ChunksOfEach([t], n) == Chunks(t, n) + [] == Chunks(t, n);
    }
  }

  /** Without the input batcher each submit is computed at once: whole when it is
      batched already or no size is given, else cut into batches of that size. */
  lemma {:induction false} DirectRun<In, Out>(c: Config<Out>, udf: Udf<In, Out>, inputs: seq<Table<In>>)
    requires c.Ok() && !c.Batching()
    ensures Completed(c, udf, inputs).history == DirectBatches(c, inputs)
  {
    DirectHistory(c, udf, State([], [], []), inputs);
    assert [] + DirectBatches(c, inputs) == DirectBatches(c, inputs);
    assert DirectBatches(c, inputs) + [] == DirectBatches(c, inputs);
  }

  /** Two runs that submit the same rows, split differently, call the UDF with
      the same batches and queue the same rows. */
  lemma {:induction false} RunsIgnoreSplit<In, Out>(c: Config<Out>, udf: Udf<In, Out>, inputs: seq<Table<In>>,
                                                    inputs': seq<Table<In>>)
    requires c.Ok() && c.Batching() && Flatten(inputs) == Flatten(inputs')
    ensures Completed(c, udf, inputs).history == Completed(c, udf, inputs').history
    ensures Flatten(Completed(c, udf, inputs).queue) == Flatten(Completed(c, udf, inputs').queue)
  {
    ComputeBatchesIgnoreSplit(c, udf, inputs);
    ComputeBatchesIgnoreSplit(c, udf, inputs');
    CompletedRun(c, udf, inputs);
    CompletedRun(c, udf, inputs');
  }

  // ----- Producing output batch by batch ------------------------------------

  lemma {:induction false} RebatchedEachSnoc<Row>(l: Limits<Row>, perBatch: seq<seq<Table<Row>>>,
                                                  tables: seq<Table<Row>>)
    requires l.Ok()
    ensures RebatchedEach(l, perBatch + [tables]) == RebatchedEach(l, perBatch) + Rebatched(l, tables)
  {
    if perBatch == [] {
      assert [] + [tables] == [tables] && RebatchedEach(l, [tables][1..]) == [];
    } else {
      assert (perBatch + [tables])[1..] == perBatch[1..] + [tables];
      RebatchedEachSnoc(l, perBatch[1..], tables);
    }
  }

  // Where a round of compute batches stands: what has been emitted, what the
  // shared buffer holds, what is collected for one final table.
  datatype Progress<Row> = Progress(emitted: seq<Table<Row>>, buffer: Buffer<Row>, results: seq<Table<Row>>,
                                    sawOutput: bool)

  ghost function ProgressOf<Row>(c: Config<Row>, perBatch: seq<seq<Table<Row>>>): (p: Progress<Row>)
    requires c.Ok()
    ensures BufferOk(p.buffer)
  {
    var saw := Flatten(perBatch) != [];
    if !c.streamOutput then Progress([], FreshBuffer(), Flatten(perBatch), saw)
    else if c.preserveBoundaries then Progress(RebatchedEach(c.limits, perBatch), FreshBuffer(), [], saw)
    else
      var e := AppendedAll(c.limits, FreshBuffer(), Flatten(perBatch));
      Progress(e.out, e.buffer, [], saw)
  }

  ghost function Advanced<Row>(c: Config<Row>, p: Progress<Row>, tables: seq<Table<Row>>): (q: Progress<Row>)
    requires c.Ok() && BufferOk(p.buffer)
    ensures BufferOk(q.buffer)
  {
    var saw := p.sawOutput || tables != [];
    if !c.streamOutput then p.(results := p.results + tables, sawOutput := saw)
    else if c.preserveBoundaries then p.(emitted := p.emitted + Rebatched(c.limits, tables), sawOutput := saw)
    else
      var e := AppendedAll(c.limits, p.buffer, tables);
      p.(emitted := p.emitted + e.out, buffer := e.buffer, sawOutput := saw)
  }

  lemma {:induction false} ProgressSnoc<Row>(c: Config<Row>, perBatch: seq<seq<Table<Row>>>, tables: seq<Table<Row>>)
    requires c.Ok()
    ensures ProgressOf(c, perBatch + [tables]) == Advanced(c, ProgressOf(c, perBatch), tables)
  {
    FlattenSnoc(perBatch, tables);
    RebatchedEachSnoc(c.limits, perBatch, tables);
    AppendedAllConcat(c.limits, FreshBuffer(), Flatten(perBatch), tables);
  }

  // Calling the UDF on each batch in turn and advancing by what it returns.
  ghost function Round<In, Out>(c: Config<Out>, udf: Udf<In, Out>, history: seq<Table<In>>, batches: seq<Table<In>>,
                                p: Progress<Out>): Progress<Out>
    requires c.Ok() && BufferOk(p.buffer)
    decreases |batches|
  {
    if batches == [] then p
    else Round(c, udf, history + [batches[0]], batches[1..], Advanced(c, p, OutputTables(udf(history, batches[0]))))
  }

  lemma {:induction false} RoundIsProgress<In, Out>(c: Config<Out>, udf: Udf<In, Out>, h: seq<Table<In>>,
                                                    batches: seq<Table<In>>, done: seq<seq<Table<Out>>>)
    requires c.Ok()
    ensures Round(c, udf, h, batches, ProgressOf(c, done)) == ProgressOf(c, done + Returned(udf, h, batches))
    decreases |batches|
  {
    if batches == [] {
      assert done + [] == done;
    } else {
      var tables := OutputTables(udf(h, batches[0]));
      ProgressSnoc(c, done, tables);
      RoundIsProgress(c, udf, h + [batches[0]], batches[1..], done + [tables]);
      Assoc(done, [tables], Returned(udf, h + [batches[0]], batches[1..]));
    }
  }

  ghost function Unstarted<Row>(queued: seq<Table<Row>>): (p: Progress<Row>)
    ensures BufferOk(p.buffer)
  {
    Progress(queued, FreshBuffer(), [], false)
  }

  lemma {:induction false} AdvancedAfterQueued<Row>(c: Config<Row>, p: Progress<Row>, tables: seq<Table<Row>>,
                                                    queued: seq<Table<Row>>)
    requires c.Ok() && BufferOk(p.buffer)
    ensures var q := Advanced(c, p, tables);
            Advanced(c, p.(emitted := queued + p.emitted), tables) == q.(emitted := queued + q.emitted)
  {
    Assoc(queued, p.emitted, Rebatched(c.limits, tables));
    Assoc(queued, p.emitted, AppendedAll(c.limits, p.buffer, tables).out);
  }

  // What was queued before a round does not influence it.
  lemma {:induction false} RoundAfterQueued<In, Out>(c: Config<Out>, udf: Udf<In, Out>, h: seq<Table<In>>,
                                                     batches: seq<Table<In>>, p: Progress<Out>, queued: seq<Table<Out>>)
    requires c.Ok() && BufferOk(p.buffer)
    ensures var r := Round(c, udf, h, batches, p);
            Round(c, udf, h, batches, p.(emitted := queued + p.emitted)) == r.(emitted := queued + r.emitted)
    decreases |batches|
  {
    if batches != [] {
      var tables := OutputTables(udf(h, batches[0]));
      var q := Advanced(c, p, tables);
      RoundAfterQueued(c, udf, h + [batches[0]], batches[1..], q, queued);
      AdvancedAfterQueued(c, p, tables, queued);
    }
  }

  // What closing a round adds to what has been emitted.
  ghost function Closing<Row>(c: Config<Row>, p: Progress<Row>, sawComputeBatch: bool): seq<Table<Row>>
    requires c.Ok() && BufferOk(p.buffer)
  {
    (if c.streamOutput && !c.preserveBoundaries then Flushed(c.limits, p.buffer).out else []) +
    (if p.results != [] then [Flatten(p.results)] else if sawComputeBatch && !p.sawOutput then [[]] else [])
  }

  lemma {:induction false} EnqueuedIsProgressAndClosing<Row>(c: Config<Row>, perBatch: seq<seq<Table<Row>>>)
    requires c.Ok()
    ensures Enqueued(c, perBatch) ==
            ProgressOf(c, perBatch).emitted + Closing(c, ProgressOf(c, perBatch), perBatch != [])
  {
    var p := ProgressOf(c, perBatch);
    var last := if p.results == [] && perBatch != [] && !p.sawOutput then [[]] else [];
    if c.streamOutput && !c.preserveBoundaries {
      Assoc(p.emitted, Flushed(c.limits, p.buffer).out, last);
    } else {
      assert [] + last == last;
    }
  }

  lemma {:induction false} EnqueuedByRound<In, Out>(c: Config<Out>, udf: Udf<In, Out>, h: seq<Table<In>>,
                                                    batches: seq<Table<In>>, queued: seq<Table<Out>>)
    requires c.Ok()
    ensures var p := Round(c, udf, h, batches, Unstarted(queued));
            && BufferOk(p.buffer)
            && queued + Enqueued(c, Returned(udf, h, batches)) == p.emitted + Closing(c, p, batches != [])
  {
    var perBatch := Returned(udf, h, batches);
    var p0, r := ProgressOf<Out>(c, []), ProgressOf(c, perBatch);
    assert p0 == Unstarted([]);
    RoundIsProgress(c, udf, h, batches, []);
    assert [] + perBatch == perBatch;
    RoundAfterQueued(c, udf, h, batches, p0, queued);
    assert queued + p0.emitted == queued;
    EnqueuedIsProgressAndClosing(c, perBatch);
    Assoc(queued, r.emitted, Closing(c, r, perBatch != []));
  }

  // ----- The objects --------------------------------------------------------

  method PushAll<Row>(buffer: RuntimeOutputBuffer<Row>, tables: seq<Table<Row>>) returns (out: seq<Table<Row>>)
    requires buffer.Valid()
    modifies buffer
    ensures buffer.Valid()
    ensures Emission(buffer.View(), out) == AppendedAll(buffer.limits, old(buffer.View()), tables)
  {
    out := [];
    ghost var start := buffer.View();
    var i := 0;
    while i < |tables|
      invariant 0 <= i <= |tables| && buffer.Valid() && BufferOk(start)
      invariant Emission(buffer.View(), out) == AppendedAll(buffer.limits, start, tables[..i])
    {
      AppendedAllConcat(buffer.limits, start, tables[..i], [tables[i]]);
      assert tables[..i + 1] == tables[..i] + [tables[i]];
      var emitted := buffer.Append(tables[i]);
      assert [tables[i]][1..] == [];
      out := out + emitted;
      i := i + 1;
    }
    assert tables[..|tables|] == tables;
  }

  // Handles the tables of one compute batch: streams them, through a buffer of
  // its own when batch boundaries must be preserved, or collects them.
  method Advance<Row>(c: Config<Row>, shared: RuntimeOutputBuffer<Row>, results: seq<Table<Row>>,
                      tables: seq<Table<Row>>)
    returns (out: seq<Table<Row>>, results': seq<Table<Row>>)
    requires c.Ok() && shared.Valid() && shared.limits == c.limits
    modifies shared
    ensures shared.Valid()
    ensures forall emitted, saw ::
              Progress(emitted + out, shared.View(), results', saw || tables != [])
              == Advanced(c, Progress(emitted, old(shared.View()), results, saw), tables)
  {
    out, results' := [], results;
    if !c.streamOutput {
      results' := results + tables;
      assert forall emitted: seq<Table<Row>> :: emitted + out == emitted;
    } else if c.preserveBoundaries {
      var own := new RuntimeOutputBuffer(c.limits);
      out := PushAll(own, tables);
      var tail := own.Flush();
      out := out + tail;
    } else {
      out := PushAll(shared, tables);
    }
  }

  method CloseRound<Row>(c: Config<Row>, shared: RuntimeOutputBuffer<Row>, results: seq<Table<Row>>, sawOutput: bool,
                         sawComputeBatch: bool) returns (out: seq<Table<Row>>)
    requires c.Ok() && shared.Valid() && shared.limits == c.limits
    modifies shared
    ensures forall emitted ::
              out == Closing(c, Progress(emitted, old(shared.View()), results, sawOutput), sawComputeBatch)
  {
    out := [];
    if c.streamOutput && !c.preserveBoundaries {
      out := shared.Flush();
    }
    if results != [] {
      out := out + [Concat(results)];
    } else if sawComputeBatch && !sawOutput {
      out := out + [[]];
    }
  }

  // The batches still to come take the round from `p` to its goal.
  ghost predicate RoundLeft<In, Out>(c: Config<Out>, udf: Udf<In, Out>, history: seq<Table<In>>, rest: seq<Table<In>>,
                                     p: Progress<Out>, whole: seq<Table<In>>, goal: Progress<Out>)
  {
    c.Ok() && BufferOk(p.buffer) && history + rest == whole && Round(c, udf, history, rest, p) == goal
  }

  lemma {:induction false} RoundStep<In, Out>(c: Config<Out>, udf: Udf<In, Out>, history: seq<Table<In>>,
                                              batches: seq<Table<In>>, i: nat, p: Progress<Out>, whole: seq<Table<In>>,
                                              goal: Progress<Out>)
    requires i < |batches| && RoundLeft(c, udf, history, batches[i..], p, whole, goal)
    ensures RoundLeft(c, udf, history + [batches[i]], batches[i + 1..],
                      Advanced(c, p, OutputTables(udf(history, batches[i]))), whole, goal)
  {
    assert batches[i..][0] == batches[i] && batches[i..][1..] == batches[i + 1..];
    assert batches[i..] == [batches[i]] + batches[i + 1..];
    Assoc(history, [batches[i]], batches[i + 1..]);
  }

  class MapBatchesExecutor<In, Out> {
    const config: Config<Out>
    const udf: Udf<In, Out>
    const batcher: RuntimeInputBatcher?<In>
    var queue: seq<Table<Out>>
    var finished: bool
    // The batches the callable has been given so far.
    var history: seq<Table<In>>

    ghost predicate Valid()
      reads this, batcher
    {
      && config.Ok()
      && (batcher != null <==> config.Batching())
      && (batcher != null ==> batcher.Valid() && batcher.targetRows == config.batchSize.value)
    }

    ghost function View(): State<In, Out>
      reads this, batcher
    {
      State(if batcher == null then [] else batcher.Pending(), history, queue)
    }

    constructor (config: Config<Out>, udf: Udf<In, Out>)
      requires config.Ok()
      ensures Valid() && (batcher != null ==> fresh(batcher)) && this.config == config && this.udf == udf
      ensures View() == State([], [], []) && !finished
    {
      this.config, this.udf := config, udf;
      queue, finished, history := [], false, [];
      if config.Batching() {
        batcher := new RuntimeInputBatcher(config.batchSize.value);
      } else {
        batcher := null;
      }
    }

    method NextComputeBatches(args: Table<In>) returns (batches: seq<Table<In>>)
      requires Valid()
      modifies batcher
      ensures Valid()
      ensures Compute(batches, View().pending) == ComputeBatches(config, old(View()).pending, args)
    {
      if config.prebatched {
        return [args];
      }
      if batcher != null {
        batches := batcher.Append(args);
        return;
      }
      batches := IterTableBatches(args, config.batchSize);
    }

    // One round of compute batches up to, but not including, its closing.
    method ExecuteEach(batches: seq<Table<In>>, shared: RuntimeOutputBuffer<Out>)
      returns (results: seq<Table<Out>>, sawOutput: bool)
      requires config.Ok() && shared.Valid() && shared.limits == config.limits && shared.View() == FreshBuffer()
      modifies this`queue, this`history, shared
      ensures history == old(history) + batches && shared.Valid()
      ensures Progress(queue, shared.View(), results, sawOutput)
           == Round(config, udf, old(history), batches, Unstarted(old(queue)))
    {
      results, sawOutput := [], false;
      ghost var goal := Round(config, udf, history, batches, Unstarted(queue));
      var i := 0;
      assert batches[0..] == batches;
      while i < |batches|
        invariant 0 <= i <= |batches| && shared.Valid()
        invariant RoundLeft(config, udf, history, batches[i..], Progress(queue, shared.View(), results, sawOutput),
                            old(history) + batches, goal)
      {
        RoundStep(config, udf, history, batches, i, Progress(queue, shared.View(), results, sawOutput),
                  old(history) + batches, goal);
        var tables := OutputTables(udf(history, batches[i]));
        history := history + [batches[i]];
        var out;
        out, results := Advance(config, shared, results, tables);
        queue := queue + out;
        sawOutput := sawOutput || tables != [];
        i := i + 1;
      }
    }

    method Execute(batches: seq<Table<In>>)
      requires config.Ok()
      modifies this`queue, this`history
      ensures history == old(history) + batches
      ensures queue == old(queue) + Enqueued(config, Returned(udf, old(history), batches))
    {
      EnqueuedByRound(config, udf, history, batches, queue);
      var shared := new RuntimeOutputBuffer(config.limits);
      var results, sawOutput := ExecuteEach(batches, shared);
      var closing := CloseRound(config, shared, results, sawOutput, batches != []);
      queue := queue + closing;
    }

    method Submit(args: Table<In>)
      requires Valid()
      modifies this`queue, this`history, batcher
      ensures Valid()
      ensures View() == Submitted(config, udf, old(View()), args)
    {
      if |args| == 0 {
        return;
      }
      var batches := NextComputeBatches(args);
      Execute(batches);
    }

    method FinishedSubmitting()
      requires Valid()
      modifies this, batcher
      ensures Valid() && finished
      ensures View() == if old(finished) then old(View()) else Finished(config, udf, old(View()))
    {
      if finished {
        return;
      }
      var batches: seq<Table<In>> := [];
      if batcher != null {
        batches := batcher.Flush();
      }
      Execute(batches);
      finished := true;
    }

    method TakeReadyResult() returns (r: Option<Table<Out>>)
      modifies this`queue
      ensures old(queue) == [] ==> r == None && queue == []
      ensures old(queue) != [] ==> r == Some(old(queue)[0]) && queue == old(queue)[1..]
    {
      if queue == [] {
        return None;
      }
      r := Some(queue[0]);
      queue := queue[1..];
    }

    method DrainOutputs() returns (out: seq<Table<Out>>)
      modifies this`queue
      ensures out == old(queue) && queue == []
    {
      out := queue;
      queue := [];
    }

    // The streaming generator, drained: what it yields, and what it leaves.
    method IterSubmit(args: Table<In>) returns (out: seq<Table<Out>>)
      requires Valid()
      modifies this`queue, this`history, batcher
      ensures Valid()
      ensures var s := Submitted(config, udf, old(View()), args);
              if config.streamOutput || args == [] then
                old(queue) + out == s.queue && View() == s.(queue := old(queue))
              else
                out == s.queue && View() == s.(queue := [])
    {
      if |args| == 0 {
        return [];
      }
      if config.streamOutput {
        var batches := NextComputeBatches(args);
        out := StreamEach(batches);
        return;
      }
      Submit(args);
      out := DrainOutputs();
    }

    method StreamEach(batches: seq<Table<In>>) returns (out: seq<Table<Out>>)
      requires config.Ok() && config.streamOutput
      modifies this`history
      ensures history == old(history) + batches
      ensures out == Enqueued(config, Returned(udf, old(history), batches))
    {
      EnqueuedByRound(config, udf, history, batches, []);
      var shared := new RuntimeOutputBuffer(config.limits);
      var results, sawOutput;
      out, results, sawOutput := StreamRound(batches, shared);
      var closing := CloseRound(config, shared, results, sawOutput, batches != []);
      out := out + closing;
    }

    method StreamRound(batches: seq<Table<In>>, shared: RuntimeOutputBuffer<Out>)
      returns (out: seq<Table<Out>>, results: seq<Table<Out>>, sawOutput: bool)
      requires config.Ok()
      requires shared.Valid() && shared.limits == config.limits && shared.View() == FreshBuffer()
      modifies this`history, shared
      ensures history == old(history) + batches && shared.Valid()
      ensures Progress(out, shared.View(), results, sawOutput)
           == Round(config, udf, old(history), batches, Unstarted([]))
    {
      out, results, sawOutput := [], [], false;
      ghost var goal := Round(config, udf, history, batches, Unstarted([]));
      var i := 0;
      assert batches[0..] == batches;
      while i < |batches|
        invariant 0 <= i <= |batches| && shared.Valid()
        invariant RoundLeft(config, udf, history, batches[i..], Progress(out, shared.View(), results, sawOutput),
                            old(history) + batches, goal)
      {
        RoundStep(config, udf, history, batches, i, Progress(out, shared.View(), results, sawOutput),
                  old(history) + batches, goal);
        var tables := OutputTables(udf(history, batches[i]));
        history := history + [batches[i]];
        var emitted;
        emitted, results := Advance(config, shared, results, tables);
        out := out + emitted;
        sawOutput := sawOutput || tables != [];
        i := i + 1;
      }
    }
  }

  method SubmitAll<In, Out>(executor: MapBatchesExecutor<In, Out>, inputs: seq<Table<In>>)
    requires executor.Valid()
    modifies executor`queue, executor`history, executor.batcher
    ensures executor.Valid()
    ensures executor.View() == SubmittedAll(executor.config, executor.udf, old(executor.View()), inputs)
  {
    var i := 0;
    while i < |inputs|
      invariant 0 <= i <= |inputs| && executor.Valid()
      invariant SubmittedAll(executor.config, executor.udf, executor.View(), inputs[i..])
             == SubmittedAll(executor.config, executor.udf, old(executor.View()), inputs)
    {
      assert inputs[i..][0] == inputs[i] && inputs[i..][1..] == inputs[i + 1..];
      executor.Submit(inputs[i]);
      i := i + 1;
    }
  }

  /** A whole run of the executor: any series of submits, then the end of input. */
  method RunToCompletion<In, Out>(c: Config<Out>, udf: Udf<In, Out>, inputs: seq<Table<In>>)
    returns (queue: seq<Table<Out>>, history: seq<Table<In>>)
    requires c.Ok()
    ensures Flatten(history) == Flatten(inputs)
    ensures QueueHoldsLeaves(udf, history, queue)
    ensures history == if c.taskBackend && !c.prebatched && c.batchSize.Some? && c.batchSize.value > 2048
                       then Chunks(Flatten(inputs), c.batchSize.value) else DirectBatches(c, inputs)
  {
    var executor := new MapBatchesExecutor(c, udf);
    SubmitAll(executor, inputs);
    executor.FinishedSubmitting();
    queue, history := executor.queue, executor.history;
    assert executor.View() == Completed(c, udf, inputs);
    CompletedRun(c, udf, inputs);
    if c.Batching() {
      ComputeBatchesIgnoreSplit(c, udf, inputs);
    } else {
      DirectRun(c, udf, inputs);
    }
  }
}
