/**
  The `flat_map` call mode: each input row yields any number of output rows,
  which are staged into tables by row count and estimated size and then passed
  through the runtime's output buffer.
*/
module FlatMap {
  import opened Wrappers
  import opened Sequences
  import opened Rebatching

  // What a UDF may return for one row: nothing, one row, or an iterable of
  // rows in which missing entries are skipped.
  datatype RowOutput<Row> =
    | NoRow
    | OneRow(row: Row)
    | ManyRows(rows: seq<Option<Row>>)

  function Present<Row>(rows: seq<Option<Row>>): seq<Row> {
    if rows == [] then [] else (if rows[0].Some? then [rows[0].value] else []) + Present(rows[1..])
  }

  function OutputRows<Row>(o: RowOutput<Row>): seq<Row> {
    match o
    case NoRow => []
    case OneRow(row) => [row]
    case ManyRows(rows) => Present(rows)
  }

  /** Each entry is skipped when it is missing and kept in its place otherwise. */
  lemma {:induction false} PresentConcat<Row>(a: seq<Option<Row>>, b: seq<Option<Row>>)
    ensures Present(a + b) == Present(a) + Present(b)
    ensures |a| == 1 ==> Present(a) == if a[0].Some? then [a[0].value] else []
  {
    if a == [] {
      assert a + b == b;
    } else {
      var head := if a[0].Some? then [a[0].value] else [];
      PresentConcat(a[1..], b);
      assert (a + b)[1..] == a[1..] + b && (a + b)[0] == a[0];
      Assoc(head, Present(a[1..]), Present(b));
    }
  }

  ghost function AllOutputRows<In, Out>(udf: In -> RowOutput<Out>, rows: seq<In>): seq<Out> {
    if rows == [] then [] else OutputRows(udf(rows[0])) + AllOutputRows(udf, rows[1..])
  }

  lemma {:induction false} AllOutputRowsConcat<In, Out>(udf: In -> RowOutput<Out>, a: seq<In>, b: seq<In>)
    ensures AllOutputRows(udf, a + b) == AllOutputRows(udf, a) + AllOutputRows(udf, b)
  {
    if a == [] {
      assert a + b == b;
    } else {
      assert (a + b)[1..] == a[1..] + b;
      AllOutputRowsConcat(udf, a[1..], b);
    }
  }

  /** One input row yields nothing, its one row, or the entries that are present. */
  lemma {:induction false} OneInput<In, Out>(udf: In -> RowOutput<Out>, x: In)
    ensures udf(x) == NoRow ==> AllOutputRows(udf, [x]) == []
    ensures udf(x).OneRow? ==> AllOutputRows(udf, [x]) == [udf(x).row]
    ensures udf(x).ManyRows? ==> AllOutputRows(udf, [x]) == Present(udf(x).rows)
  {
    assert [x][1..] == [];
  }

  // ----- Staging rows into tables -------------------------------------------

  datatype Config<!Row> = Config(limits: Limits<Row>, rowBytes: Row -> int) {
    // The executor always sets a byte target.
    predicate Ok() {
      limits.Ok() && limits.bytes.Some?
    }

    function RowBytes(row: Row): int {
      Max(1, rowBytes(row))
    }

    predicate Full(rows: nat, bytes: int)
      requires Ok()
    {
      (limits.rows.Some? && rows >= limits.rows.value) || bytes >= limits.bytes.value
    }
  }

  datatype Stage<Row> = Stage(tables: seq<Table<Row>>, rows: seq<Row>, bytes: int)

  ghost function Staged<Row>(c: Config<Row>, rows: seq<Row>): Stage<Row>
    requires c.Ok()
    decreases |rows|
  {
    if rows == [] then Stage([], [], 0)
    else StagedOne(c, Staged(c, rows[..|rows| - 1]), rows[|rows| - 1])
  }

  ghost function StagedOne<Row>(c: Config<Row>, s: Stage<Row>, row: Row): Stage<Row>
    requires c.Ok()
  {
    var t := s.rows + [row];
    var bytes := s.bytes + c.RowBytes(row);
    if c.Full(|t|, bytes) then Stage(s.tables + [t], [], 0) else Stage(s.tables, t, bytes)
  }

  lemma {:induction false} StagedSnoc<Row>(c: Config<Row>, rows: seq<Row>, row: Row)
    requires c.Ok()
    ensures Staged(c, rows + [row]) == StagedOne(c, Staged(c, rows), row)
  {
    assert (rows + [row])[..|rows|] == rows;
  }

  ghost function StagedTables<Row>(c: Config<Row>, rows: seq<Row>): seq<Table<Row>>
    requires c.Ok()
  {
    var s := Staged(c, rows);
    if s.rows == [] then s.tables else s.tables + [s.rows]
  }

  lemma {:induction false} StagedKeepsRows<Row>(c: Config<Row>, rows: seq<Row>)
    requires c.Ok()
    ensures Flatten(Staged(c, rows).tables) + Staged(c, rows).rows == rows
    decreases |rows|
  {
    if rows != [] {
      var init, last := rows[..|rows| - 1], rows[|rows| - 1];
      var s := Staged(c, init);
      StagedKeepsRows(c, init);
      FlattenSnoc(s.tables, s.rows + [last]);
      assert init + [last] == rows;
      Assoc(Flatten(s.tables), s.rows, [last]);
    }
  }

  lemma {:induction false} StagedTablesKeepRows<Row>(c: Config<Row>, rows: seq<Row>)
    requires c.Ok()
    ensures Flatten(StagedTables(c, rows)) == rows
  {
    StagedKeepsRows(c, rows);
    FlattenSnoc(Staged(c, rows).tables, Staged(c, rows).rows);
  }

  ghost function BytesOf<Row>(c: Config<Row>, rows: seq<Row>): int {
    if rows == [] then 0 else BytesOf(c, rows[..|rows| - 1]) + Max(1, c.rowBytes(rows[|rows| - 1]))
  }

  ghost predicate Reached<Row>(c: Config<Row>, rows: seq<Row>)
    requires c.Ok()
  {
    (c.limits.rows.Some? && |rows| >= c.limits.rows.value) || BytesOf(c, rows) >= c.limits.bytes.value
  }

  // The last row of the table is the first to reach a limit.
  ghost predicate JustReached<Row>(c: Config<Row>, t: Table<Row>)
    requires c.Ok()
  {
    t != [] && Reached(c, t) && !Reached(c, t[..|t| - 1])
  }

  /** Rows are staged until one reaches the row or the byte target, each row
      counting at least one byte. */
  lemma {:induction false} StagedJustReached<Row>(c: Config<Row>, rows: seq<Row>)
    requires c.Ok()
    ensures var s := Staged(c, rows);
            && (forall i :: 0 <= i < |s.tables| ==> JustReached(c, s.tables[i]))
            && s.bytes == BytesOf(c, s.rows) && !Reached(c, s.rows)
    decreases |rows|
  {
    if rows != [] {
      var s, last := Staged(c, rows[..|rows| - 1]), rows[|rows| - 1];
      StagedJustReached(c, rows[..|rows| - 1]);
      assert (s.rows + [last])[..|s.rows|] == s.rows;
    }
  }

  // What the mode yields for the given output rows.
  ghost function Yielded<Row>(c: Config<Row>, rows: seq<Row>): seq<Table<Row>>
    requires c.Ok()
  {
    Rebatched(c.limits, StagedTables(c, rows))
  }

  /** Staging and re-batching together neither lose nor reorder a row, keep to
      the row target, and yield nothing exactly when there is no output row. */
  lemma {:induction false} YieldedRows<Row>(c: Config<Row>, rows: seq<Row>)
    requires c.Ok()
    ensures Flatten(Yielded(c, rows)) == rows
    ensures rows != [] ==> WithinRows(c.limits, Yielded(c, rows))
    ensures rows == [] <==> Yielded(c, rows) == []
  {
    StagedTablesKeepRows(c, rows);
    RebatchedStream(c.limits, StagedTables(c, rows));
    if rows == [] {
      assert StagedTables(c, rows) == [];
    }
  }

  /** With rows of equal table weight the estimate used for staging cannot be
      seen in the output. */
  lemma {:induction false} YieldedChunks<Row(!new)>(c: Config<Row>, w: nat, rows: seq<Row>)
    requires c.Ok() && Uniform(c.limits, w)
    ensures Yielded(c, rows) == Chunks(rows, RowsPerBatch(c.limits, w))
  {
    StagedTablesKeepRows(c, rows);
    YieldedRows(c, rows);
    if rows != [] {
      FragmentationInvariance(c.limits, w, StagedTables(c, rows));
    }
  }

  // ----- The generator, drained ---------------------------------------------

  class FlatMapWriter<Row> {
    const config: Config<Row>
    const buffer: RuntimeOutputBuffer<Row>
    var outputRows: seq<Row>
    var outputRowBytes: int
    // The tables yielded so far.
    var emitted: seq<Table<Row>>
    // Every output row received so far.
    ghost var received: seq<Row>

    ghost predicate Valid()
      reads this, buffer
    {
      && config.Ok() && buffer.Valid() && buffer.limits == config.limits
      && Staged(config, received).rows == outputRows
      && Staged(config, received).bytes == outputRowBytes
      && Emission(buffer.View(), emitted) == AppendedAll(config.limits, FreshBuffer(), Staged(config, received).tables)
    }

    constructor (config: Config<Row>)
      requires config.Ok()
      ensures Valid() && fresh(buffer) && this.config == config && received == []
    {
      this.config := config;
      buffer := new RuntimeOutputBuffer(config.limits);
      outputRows, outputRowBytes, received, emitted := [], 0, [], [];
    }

    method FlushRows()
      requires config.Ok() && buffer.Valid() && buffer.limits == config.limits
      modifies this`outputRows, this`outputRowBytes, this`emitted, buffer
      ensures buffer.Valid() && outputRows == [] && outputRowBytes == 0
      ensures var e := Appended(config.limits, old(buffer.View()), old(outputRows));
              buffer.View() == e.buffer && emitted == old(emitted) + e.out
    {
      var out := buffer.Append(outputRows);
      outputRows, outputRowBytes := [], 0;
      emitted := emitted + out;
    }

    method AppendRow(row: Row)
      requires Valid()
      modifies this, buffer
      ensures Valid() && received == old(received) + [row]
    {
      ghost var staged := Staged(config, received);
      StagedSnoc(config, received, row);
      outputRows := outputRows + [row];
      outputRowBytes := outputRowBytes + config.RowBytes(row);
      if config.Full(|outputRows|, outputRowBytes) {
        AppendedAllSnoc(config.limits, FreshBuffer(), staged.tables, outputRows);
        FlushRows();
      }
      received := received + [row];
    }

    method Finish()
      requires Valid()
      modifies this, buffer
      ensures emitted == Yielded(config, old(received))
    {
      if outputRows != [] {
        AppendedAllSnoc(config.limits, FreshBuffer(), Staged(config, received).tables, outputRows);
        FlushRows();
      }
      assert Emission(buffer.View(), emitted) ==
             AppendedAll(config.limits, FreshBuffer(), StagedTables(config, received));
      var tail := buffer.Flush();
      emitted := emitted + tail;
    }
  }

  method AppendRows<Row>(w: FlatMapWriter<Row>, rows: seq<Row>)
    requires w.Valid()
    modifies w, w.buffer
    ensures w.Valid() && w.received == old(w.received) + rows
  {
    ghost var before := w.received;
    var i := 0;
    assert before + rows[..0] == before;
    while i < |rows|
      invariant 0 <= i <= |rows| && w.Valid()
      invariant w.received == before + rows[..i]
    {
      w.AppendRow(rows[i]);
      TakeSnoc(before, rows, i);
      i := i + 1;
    }
    assert rows[..i] == rows;
  }

  lemma {:induction false} OutputRowsFrom<In, Out>(udf: In -> RowOutput<Out>, batch: Table<In>, i: nat,
                                                   before: seq<Out>)
    requires i < |batch|
    ensures before + AllOutputRows(udf, batch[i..])
         == (before + OutputRows(udf(batch[i]))) + AllOutputRows(udf, batch[i + 1..])
  {
    assert batch[i..][0] == batch[i] && batch[i..][1..] == batch[i + 1..];
    Assoc(before, OutputRows(udf(batch[i])), AllOutputRows(udf, batch[i + 1..]));
  }

  method MapRows<In, Out>(w: FlatMapWriter<Out>, udf: In -> RowOutput<Out>, batch: Table<In>)
    requires w.Valid()
    modifies w, w.buffer
    ensures w.Valid() && w.received == old(w.received) + AllOutputRows(udf, batch)
  {
    var i := 0;
    ghost var goal := w.received + AllOutputRows(udf, batch);
    assert batch[0..] == batch;
    while i < |batch|
      invariant 0 <= i <= |batch| && w.Valid()
      invariant w.received + AllOutputRows(udf, batch[i..]) == goal
    {
      OutputRowsFrom(udf, batch, i, w.received);
      AppendRows(w, OutputRows(udf(batch[i])));
      i := i + 1;
    }
  }

  ghost function BatchOutputRows<In, Out>(udf: In -> RowOutput<Out>, batches: seq<Table<In>>): seq<Out> {
    if batches == [] then [] else AllOutputRows(udf, batches[0]) + BatchOutputRows(udf, batches[1..])
  }

  lemma {:induction false} BatchingIsInvisible<In, Out>(udf: In -> RowOutput<Out>, batches: seq<Table<In>>)
    ensures BatchOutputRows(udf, batches) == AllOutputRows(udf, Flatten(batches))
  {
    if batches != [] {
      BatchingIsInvisible(udf, batches[1..]);
      AllOutputRowsConcat(udf, batches[0], Flatten(batches[1..]));
    }
  }

  lemma {:induction false} BatchOutputRowsFrom<In, Out>(udf: In -> RowOutput<Out>, batches: seq<Table<In>>, i: nat,
                                                        before: seq<Out>)
    requires i < |batches|
    ensures before + BatchOutputRows(udf, batches[i..])
         == (before + AllOutputRows(udf, batches[i])) + BatchOutputRows(udf, batches[i + 1..])
  {
    assert batches[i..][0] == batches[i] && batches[i..][1..] == batches[i + 1..];
    Assoc(before, AllOutputRows(udf, batches[i]), BatchOutputRows(udf, batches[i + 1..]));
  }

  method MapBatches<In, Out>(w: FlatMapWriter<Out>, udf: In -> RowOutput<Out>, batches: seq<Table<In>>)
    requires w.Valid()
    modifies w, w.buffer
    ensures w.Valid() && w.received == old(w.received) + BatchOutputRows(udf, batches)
  {
    var i := 0;
    ghost var goal := w.received + BatchOutputRows(udf, batches);
    assert batches[0..] == batches;
    while i < |batches|
      invariant 0 <= i <= |batches| && w.Valid()
      invariant w.received + BatchOutputRows(udf, batches[i..]) == goal
    {
      BatchOutputRowsFrom(udf, batches, i, w.received);
      MapRows(w, udf, batches[i]);
      i := i + 1;
    }
  }

  /** One submitted table in `flat_map` mode: whatever the input batching, the
      tables enqueued hold the UDF's output rows in order; a submit that
      produces no row enqueues one empty table. */
  method ExecuteFlatMap<In, Out>(c: Config<Out>, udf: In -> RowOutput<Out>, args: Table<In>, batchSize: Option<int>,
                                 prebatched: bool)
    returns (out: seq<Table<Out>>)
    requires c.Ok()
    ensures Flatten(out) == AllOutputRows(udf, args)
    ensures out == if AllOutputRows(udf, args) == [] then [[]] else Yielded(c, AllOutputRows(udf, args))
  {
    var batches := [args];
    FlattenOne(args);
    if !prebatched {
      batches := IterTableBatches(args, batchSize);
    }
    var w := new FlatMapWriter(c);
    MapBatches(w, udf, batches);
    BatchingIsInvisible(udf, batches);
    assert w.received == AllOutputRows(udf, args);
    w.Finish();
    out := w.emitted;
    YieldedRows(c, AllOutputRows(udf, args));
    if out == [] {
      FlattenOne<Out>([]);
      out := [[]];
    }
  }
}
