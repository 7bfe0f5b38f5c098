/**
  The `map` call mode: a UDF producing one cell per row, executed either row by
  row or on whole columns with NULL filtering, batching and scatter.
*/
module ScalarUdf {
  import opened Wrappers
  import opened Sequences
  import opened Rebatching

  // A missing value is NULL.
  type Cell<V> = Option<V>

  type Row<V> = seq<Cell<V>>

  // What calling the UDF on one row does.
  datatype Outcome<V> = Value(cell: Cell<V>) | Raise

  type RowUdf<!V> = Row<V> -> Outcome<V>

  datatype Error = UdfRaised | NullReturned

  datatype Mode = Mode(defaultNulls: bool, returnNull: bool)

  predicate HasNull<V>(row: Row<V>) {
    exists k :: 0 <= k < |row| && row[k] == None
  }

  // ----- The row path -------------------------------------------------------

  function CellOf<V>(m: Mode, f: RowUdf<V>, row: Row<V>): Result<Cell<V>, Error> {
    if m.defaultNulls && HasNull(row) then Success(None)
    else
      match f(row)
      case Raise => if m.returnNull then Success(None) else Failure(UdfRaised)
      case Value(cell) => if m.defaultNulls && cell == None then Failure(NullReturned) else Success(cell)
  }

  function NativeColumn<V>(m: Mode, f: RowUdf<V>, rows: seq<Row<V>>): Result<seq<Cell<V>>, Error> {
    if rows == [] then Success([])
    else
      match CellOf(m, f, rows[0])
      case Failure(e) => Failure(e)
      case Success(cell) =>
        match NativeColumn(m, f, rows[1..])
        case Failure(e) => Failure(e)
        case Success(cells) => Success([cell] + cells)
  }

  ghost function After<V>(outputs: seq<Cell<V>>, r: Result<seq<Cell<V>>, Error>): Result<seq<Cell<V>>, Error> {
    if r.Failure? then r else Success(outputs + r.value)
  }

  lemma {:induction false} AfterEnds<V>(r: Result<seq<Cell<V>>, Error>, outputs: seq<Cell<V>>)
    ensures After([], r) == r && After(outputs, Success([])) == Success(outputs)
  {
    assert outputs + [] == outputs;
    if r.Success? {
      assert [] + r.value == r.value;
    }
  }

  lemma {:induction false} NativeColumnFrom<V>(m: Mode, f: RowUdf<V>, rows: seq<Row<V>>, i: nat, outputs: seq<Cell<V>>)
    requires i < |rows|
    ensures After(outputs, NativeColumn(m, f, rows[i..])) ==
            match CellOf(m, f, rows[i])
            case Failure(e) => Failure(e)
            case Success(cell) => After(outputs + [cell], NativeColumn(m, f, rows[i + 1..]))
  {
    assert rows[i..][0] == rows[i] && rows[i..][1..] == rows[i + 1..];
    var rest := NativeColumn(m, f, rows[i + 1..]);
    if rest.Success? && CellOf(m, f, rows[i]).Success? {
      Assoc(outputs, [CellOf(m, f, rows[i]).value], rest.value);
    }
  }

  method ExecuteNative<V>(m: Mode, f: RowUdf<V>, rows: seq<Row<V>>) returns (r: Result<seq<Cell<V>>, Error>)
    ensures r == NativeColumn(m, f, rows)
  {
    var outputs: seq<Cell<V>> := [];
    var i := 0;
    assert rows[0..] == rows;
    AfterEnds(NativeColumn(m, f, rows), []);
    while i < |rows|
      invariant 0 <= i <= |rows|
      invariant After(outputs, NativeColumn(m, f, rows[i..])) == NativeColumn(m, f, rows)
    {
      var row := rows[i];
      NativeColumnFrom(m, f, rows, i, outputs);
      if m.defaultNulls && HasNull(row) {
        outputs := outputs + [None];
      } else {
        match f(row)
        case Raise =>
          if !m.returnNull {
            return Failure(UdfRaised);
          }
          outputs := outputs + [None];
        case Value(cell) =>
          if m.defaultNulls && cell == None {
            return Failure(NullReturned);
          }
          outputs := outputs + [cell];
      }
      i := i + 1;
    }
    AfterEnds(NativeColumn(m, f, rows), outputs);
    return Success(outputs);
  }

  // ----- The column path ----------------------------------------------------

  // The rows the UDF is called on.
  function CalledRows<V>(m: Mode, rows: seq<Row<V>>): seq<Row<V>> {
    if rows == [] then []
    else (if m.defaultNulls && HasNull(rows[0]) then [] else [rows[0]]) + CalledRows(m, rows[1..])
  }

  // A vectorised callable that applies the row function to every row of its
  // batch, and so raises when any of them does.
  function Lifted<V>(f: RowUdf<V>, batch: seq<Row<V>>): Option<seq<Cell<V>>> {
    if batch == [] then Some([])
    else
      match f(batch[0])
      case Raise => None
      case Value(cell) =>
        match Lifted(f, batch[1..])
        case None => None
        case Some(cells) => Some([cell] + cells)
  }

  function Nulls<V>(n: nat): seq<Cell<V>> {
    if n == 0 then [] else [None] + Nulls(n - 1)
  }

  datatype Column<V> = Column(cells: seq<Cell<V>>, raised: bool)

  function BatchColumns<V>(m: Mode, f: RowUdf<V>, batches: seq<seq<Row<V>>>): Result<Column<V>, Error> {
    if batches == [] then Success(Column([], false))
    else
      var out := Lifted(f, batches[0]);
      if out == None && !m.returnNull then Failure(UdfRaised)
      else
        match BatchColumns(m, f, batches[1..])
        case Failure(e) => Failure(e)
        case Success(rest) =>
          if out == None then Success(Column(Nulls(|batches[0]|) + rest.cells, true))
          else Success(Column(out.value + rest.cells, rest.raised))
  }

  // Puts each computed cell back at its row; skipped rows stay NULL.
  function Scattered<V>(m: Mode, rows: seq<Row<V>>, cells: seq<Cell<V>>): seq<Cell<V>>
    requires |cells| == |CalledRows(m, rows)|
  {
    if rows == [] then []
    else if m.defaultNulls && HasNull(rows[0]) then [None] + Scattered(m, rows[1..], cells)
    else [cells[0]] + Scattered(m, rows[1..], cells[1..])
  }

  ghost function ArrowColumn<V>(m: Mode, f: RowUdf<V>, rows: seq<Row<V>>,
                                batchSize: Option<int>): Result<seq<Cell<V>>, Error>
  {
    var called := CalledRows(m, rows);
    match BatchColumns(m, f, TableBatches(called, batchSize))
    case Failure(e) => Failure(e)
    case Success(column) =>
      if m.defaultNulls && !column.raised && None in column.cells then Failure(NullReturned)
      else
        BatchColumnsSize(m, f, called, batchSize);
        Success(Scattered(m, rows, column.cells))
  }

  lemma {:induction false} BatchColumnsLength<V>(m: Mode, f: RowUdf<V>, batches: seq<seq<Row<V>>>)
    ensures BatchColumns(m, f, batches).Success? ==>
              |BatchColumns(m, f, batches).value.cells| == |Flatten(batches)|
  {
    if batches != [] {
      LiftedLength(f, batches[0]);
      NullsAreNull<V>(|batches[0]|);
      BatchColumnsLength(m, f, batches[1..]);
    }
  }

  lemma {:induction false} LiftedLength<V>(f: RowUdf<V>, batch: seq<Row<V>>)
    ensures Lifted(f, batch).Some? ==> |Lifted(f, batch).value| == |batch|
  {
    if batch != [] {
      LiftedLength(f, batch[1..]);
    }
  }

  lemma {:induction false} NullsAreNull<V>(n: nat)
    ensures |Nulls<V>(n)| == n && forall i :: 0 <= i < n ==> Nulls<V>(n)[i] == None
  {
    if n != 0 {
      NullsAreNull<V>(n - 1);
    }
  }

  lemma {:induction false} TableBatchesJoin<T>(t: Table<T>, batchSize: Option<int>)
    ensures Flatten(TableBatches(t, batchSize)) == t
  {
    FlattenOne(t);
    if batchSize.Some? && batchSize.value > 0 {
      ChunksCut(t, batchSize.value);
    }
  }

  lemma {:induction false} BatchColumnsSize<V>(m: Mode, f: RowUdf<V>, called: seq<Row<V>>, batchSize: Option<int>)
    ensures BatchColumns(m, f, TableBatches(called, batchSize)).Success? ==>
              |BatchColumns(m, f, TableBatches(called, batchSize)).value.cells| == |called|
  {
    BatchColumnsLength(m, f, TableBatches(called, batchSize));
    TableBatchesJoin(called, batchSize);
  }

  // ----- When the two paths agree -------------------------------------------

  predicate Raises<V>(f: RowUdf<V>, rows: seq<Row<V>>) {
    exists i :: 0 <= i < |rows| && f(rows[i]).Raise?
  }

  predicate ReturnsNull<V>(f: RowUdf<V>, rows: seq<Row<V>>) {
    exists i :: 0 <= i < |rows| && f(rows[i]) == Value(None)
  }

  // The cells of the called rows when each row that raises is NULL by itself.
  function RowCells<V>(f: RowUdf<V>, rows: seq<Row<V>>): seq<Cell<V>> {
    seq(|rows|, i requires 0 <= i < |rows| => if f(rows[i]).Raise? then None else f(rows[i]).cell)
  }

  // The same when a row that raises makes its whole batch NULL.
  function BatchCells<V>(f: RowUdf<V>, batches: seq<seq<Row<V>>>): seq<Cell<V>> {
    if batches == [] then []
    else (if Raises(f, batches[0]) then Nulls(|batches[0]|) else RowCells(f, batches[0])) + BatchCells(f, batches[1..])
  }

  // No batch in which one row raises holds a row with a value.
  ghost predicate RaisingBatchesAreNull<V>(f: RowUdf<V>, batches: seq<seq<Row<V>>>) {
    forall j :: 0 <= j < |batches| && Raises(f, batches[j]) ==> AllNull(f, batches[j])
  }

  ghost predicate AllNull<V>(f: RowUdf<V>, batch: seq<Row<V>>) {
    forall i :: 0 <= i < |batch| ==> f(batch[i]).Raise? || f(batch[i]).cell == None
  }

  lemma {:induction false} RaisesCons<V>(f: RowUdf<V>, rows: seq<Row<V>>)
    requires rows != []
    ensures Raises(f, rows) <==> f(rows[0]).Raise? || Raises(f, rows[1..])
    ensures ReturnsNull(f, rows) <==> f(rows[0]) == Value(None) || ReturnsNull(f, rows[1..])
    ensures RowCells(f, rows) == RowCells(f, [rows[0]]) + RowCells(f, rows[1..])
  {
    assert forall i :: 0 <= i < |rows| - 1 ==> rows[1..][i] == rows[i + 1];
  }

  lemma {:induction false} RaisesConcat<V>(f: RowUdf<V>, a: seq<Row<V>>, b: seq<Row<V>>)
    ensures Raises(f, a + b) <==> Raises(f, a) || Raises(f, b)
    ensures RowCells(f, a + b) == RowCells(f, a) + RowCells(f, b)
  {
    if Raises(f, a + b) {
      var i :| 0 <= i < |a + b| && f((a + b)[i]).Raise?;
      assert if i < |a| then f(a[i]).Raise? else f(b[i - |a|]).Raise?;
    }
    if Raises(f, a) {
      var i :| 0 <= i < |a| && f(a[i]).Raise?;
      assert f((a + b)[i]).Raise?;
    }
    if Raises(f, b) {
      var i :| 0 <= i < |b| && f(b[i]).Raise?;
      assert f((a + b)[|a| + i]).Raise?;
    }
  }

  lemma {:induction false} LiftedCells<V>(f: RowUdf<V>, batch: seq<Row<V>>)
    ensures Lifted(f, batch) == if Raises(f, batch) then None else Some(RowCells(f, batch))
  {
    if batch == [] {
      assert RowCells(f, batch) == [];
    } else {
      RaisesCons(f, batch);
      LiftedCells(f, batch[1..]);
      assert !f(batch[0]).Raise? ==> RowCells(f, [batch[0]]) == [f(batch[0]).cell];
    }
  }

  lemma {:induction false} BatchColumnsCells<V>(m: Mode, f: RowUdf<V>, batches: seq<seq<Row<V>>>)
    ensures BatchColumns(m, f, batches) ==
            if !m.returnNull && Raises(f, Flatten(batches)) then Failure(UdfRaised)
            else Success(Column(BatchCells(f, batches), Raises(f, Flatten(batches))))
  {
    if batches != [] {
      LiftedCells(f, batches[0]);
      RaisesConcat(f, batches[0], Flatten(batches[1..]));
      BatchColumnsCells(m, f, batches[1..]);
    }
  }

  lemma {:induction false} CellsWithoutRaise<V>(f: RowUdf<V>, batches: seq<seq<Row<V>>>)
    requires !Raises(f, Flatten(batches))
    ensures BatchCells(f, batches) == RowCells(f, Flatten(batches))
  {
    if batches != [] {
      RaisesConcat(f, batches[0], Flatten(batches[1..]));
      CellsWithoutRaise(f, batches[1..]);
    }
  }

  lemma {:induction false} BatchCellsAgree<V>(f: RowUdf<V>, batches: seq<seq<Row<V>>>)
    ensures |BatchCells(f, batches)| == |Flatten(batches)|
    ensures BatchCells(f, batches) == RowCells(f, Flatten(batches)) <==> RaisingBatchesAreNull(f, batches)
  {
    if batches != [] {
      var first := if Raises(f, batches[0]) then Nulls(|batches[0]|) else RowCells(f, batches[0]);
      NullsAreNull<V>(|batches[0]|);
      RaisesConcat(f, batches[0], Flatten(batches[1..]));
      BatchCellsAgree(f, batches[1..]);
      SameSplit(first, BatchCells(f, batches[1..]), RowCells(f, batches[0]), RowCells(f, Flatten(batches[1..])));
      FirstBatchAgrees(f, batches[0], first);
      assert forall j :: 1 <= j < |batches| ==> batches[j] == batches[1..][j - 1];
    }
  }

  lemma {:induction false} FirstBatchAgrees<V>(f: RowUdf<V>, batch: seq<Row<V>>, cells: seq<Cell<V>>)
    requires |cells| == |batch|
    requires Raises(f, batch) ==> forall i :: 0 <= i < |cells| ==> cells[i] == None
    requires !Raises(f, batch) ==> cells == RowCells(f, batch)
    ensures cells == RowCells(f, batch) <==> (Raises(f, batch) ==> AllNull(f, batch))
  {
    if cells == RowCells(f, batch) && Raises(f, batch) {
      forall i | 0 <= i < |batch| ensures f(batch[i]).Raise? || f(batch[i]).cell == None {
        assert cells[i] == RowCells(f, batch)[i];
      }
    }
  }

  lemma {:induction false} SameSplit<T>(a: seq<T>, b: seq<T>, c: seq<T>, d: seq<T>)
    requires |a| == |c|
    ensures a + b == c + d <==> a == c && b == d
  {
    if a + b == c + d {
      assert a == (a + b)[..|a|] && c == (c + d)[..|a|];
      assert b == (a + b)[|a|..] && d == (c + d)[|a|..];
    }
  }

  lemma {:induction false} ScatteredInjective<V>(m: Mode, rows: seq<Row<V>>, x: seq<Cell<V>>, y: seq<Cell<V>>)
    requires |x| == |y| == |CalledRows(m, rows)|
    ensures Scattered(m, rows, x) == Scattered(m, rows, y) <==> x == y
  {
    if rows != [] {
      if m.defaultNulls && HasNull(rows[0]) {
        ScatteredInjective(m, rows[1..], x, y);
        SameSplit([None], Scattered(m, rows[1..], x), [None], Scattered(m, rows[1..], y));
      } else {
        ScatteredInjective(m, rows[1..], x[1..], y[1..]);
        SameSplit([x[0]], Scattered(m, rows[1..], x[1..]), [y[0]], Scattered(m, rows[1..], y[1..]));
        assert x == [x[0]] + x[1..] && y == [y[0]] + y[1..];
        SameSplit([x[0]], x[1..], [y[0]], y[1..]);
      }
    }
  }

  lemma {:induction false} NativeColumnCells<V>(m: Mode, f: RowUdf<V>, rows: seq<Row<V>>)
    ensures var called := CalledRows(m, rows);
            && |RowCells(f, called)| == |called|
            && (NativeColumn(m, f, rows).Success? <==>
                  (!m.returnNull ==> !Raises(f, called)) && (m.defaultNulls ==> !ReturnsNull(f, called)))
            && (NativeColumn(m, f, rows).Success? ==>
                  NativeColumn(m, f, rows).value == Scattered(m, rows, RowCells(f, called)))
            && (NativeColumn(m, f, rows) == Failure(UdfRaised) ==> !m.returnNull && Raises(f, called))
            && (NativeColumn(m, f, rows) == Failure(NullReturned) ==> m.defaultNulls && ReturnsNull(f, called))
  {
    if rows != [] {
      NativeColumnCells(m, f, rows[1..]);
      var rest := CalledRows(m, rows[1..]);
      if m.defaultNulls && HasNull(rows[0]) {
        assert CalledRows(m, rows) == rest;
      } else {
        var called := CalledRows(m, rows);
        assert called[0] == rows[0] && called[1..] == rest;
        RaisesCons(f, called);
        assert RowCells(f, called)[1..] == RowCells(f, rest);
      }
    }
  }

  lemma {:induction false} ArrowColumnCells<V>(m: Mode, f: RowUdf<V>, rows: seq<Row<V>>, batchSize: Option<int>)
    ensures var called := CalledRows(m, rows);
            var cells := BatchCells(f, TableBatches(called, batchSize));
            && |cells| == |called|
            && ArrowColumn(m, f, rows, batchSize) ==
               if !m.returnNull && Raises(f, called) then Failure(UdfRaised)
               else if m.defaultNulls && !Raises(f, called) && ReturnsNull(f, called) then Failure(NullReturned)
               else Success(Scattered(m, rows, cells))
  {
    var called := CalledRows(m, rows);
    var batches := TableBatches(called, batchSize);
    TableBatchesJoin(called, batchSize);
    BatchColumnsCells(m, f, batches);
    BatchCellsAgree(f, batches);
    if !Raises(f, called) {
      CellsWithoutRaise(f, batches);
      NullCells(f, called);
    }
  }

  /** Without raising rows the vectorised path gives the row path's column, or
      its NULL error, whatever the batch size. */
  lemma {:induction false} ArrowRefinesNative<V>(m: Mode, f: RowUdf<V>, rows: seq<Row<V>>, batchSize: Option<int>)
    requires !Raises(f, CalledRows(m, rows))
    ensures ArrowColumn(m, f, rows, batchSize) == NativeColumn(m, f, rows)
  {
    var batches := TableBatches(CalledRows(m, rows), batchSize);
    ArrowColumnCells(m, f, rows, batchSize);
    NativeColumnCells(m, f, rows);
    TableBatchesJoin(CalledRows(m, rows), batchSize);
    CellsWithoutRaise(f, batches);
    if NativeColumn(m, f, rows).Failure? {
      assert NativeColumn(m, f, rows).error != UdfRaised;
    }
  }

  // A row returns NULL before any row raises.
  ghost predicate NullBeforeRaise<V>(f: RowUdf<V>, rows: seq<Row<V>>) {
    exists i :: 0 <= i < |rows| && f(rows[i]) == Value(None) && !Raises(f, rows[..i])
  }

  lemma {:induction false} NullBeforeRaiseCons<V>(f: RowUdf<V>, rows: seq<Row<V>>)
    requires rows != []
    ensures NullBeforeRaise(f, rows) <==>
            f(rows[0]) == Value(None) || (!f(rows[0]).Raise? && NullBeforeRaise(f, rows[1..]))
  {
    if NullBeforeRaise(f, rows) {
      var i :| 0 <= i < |rows| && f(rows[i]) == Value(None) && !Raises(f, rows[..i]);
      if i > 0 {
        assert rows[..i][0] == rows[0] && rows[..i][1..] == rows[1..][..i - 1];
        RaisesCons(f, rows[..i]);
        assert rows[1..][i - 1] == rows[i];
      }
    }
    if f(rows[0]) == Value(None) {
      assert rows[..0] == [];
    } else if !f(rows[0]).Raise? && NullBeforeRaise(f, rows[1..]) {
      var j :| 0 <= j < |rows[1..]| && f(rows[1..][j]) == Value(None) && !Raises(f, rows[1..][..j]);
      assert rows[..j + 1][0] == rows[0] && rows[..j + 1][1..] == rows[1..][..j];
      RaisesCons(f, rows[..j + 1]);
      assert rows[j + 1] == rows[1..][j];
    }
  }

  // The row path stops at whichever fault comes first.
  lemma {:induction false} NativeNullError<V>(m: Mode, f: RowUdf<V>, rows: seq<Row<V>>)
    requires !m.returnNull
    ensures NativeColumn(m, f, rows) == Failure(NullReturned) <==>
            m.defaultNulls && NullBeforeRaise(f, CalledRows(m, rows))
  {
    if rows != [] {
      NativeNullError(m, f, rows[1..]);
      var called, rest := CalledRows(m, rows), CalledRows(m, rows[1..]);
      if m.defaultNulls && HasNull(rows[0]) {
        assert called == rest;
      } else {
        assert called[0] == rows[0] && called[1..] == rest;
        NullBeforeRaiseCons(f, called);
      }
    }
  }

  /** When errors propagate, one path fails exactly when the other does, and with
      the same error unless, under default handling, a NULL is returned before the
      first raising row: then the row path reports the NULL and the vectorised path
      the exception. */
  lemma {:induction false} ArrowFailsWithNative<V>(m: Mode, f: RowUdf<V>, rows: seq<Row<V>>, batchSize: Option<int>)
    requires !m.returnNull
    ensures ArrowColumn(m, f, rows, batchSize).Success? <==> NativeColumn(m, f, rows).Success?
    ensures ArrowColumn(m, f, rows, batchSize).Success? ==>
              ArrowColumn(m, f, rows, batchSize) == NativeColumn(m, f, rows)
    ensures ArrowColumn(m, f, rows, batchSize) == NativeColumn(m, f, rows) <==>
            !(m.defaultNulls && Raises(f, CalledRows(m, rows)) && NullBeforeRaise(f, CalledRows(m, rows)))
  {
    ArrowColumnCells(m, f, rows, batchSize);
    NativeColumnCells(m, f, rows);
    NativeNullError(m, f, rows);
    if Raises(f, CalledRows(m, rows)) {
      var native := NativeColumn(m, f, rows);
      assert native == Failure(native.error) && (native.error == UdfRaised || native.error == NullReturned);
    } else {
      ArrowRefinesNative(m, f, rows, batchSize);
    }
  }

  // A function that returns NULL on one value and raises on another.
  function NullOnOne(row: Row<int>): Outcome<int> {
    if row == [Some(1)] then Value(None) else if row == [Some(0)] then Raise else Value(Some(1))
  }

  /** Errors propagated: a NULL result in the first row, an exception in the
      second, and each path reports another error. */
  lemma {:induction false} ErrorsDiffer()
    ensures ArrowColumn(Mode(true, false), NullOnOne, [[Some(1)], [Some(0)]], None) == Failure(UdfRaised)
    ensures NativeColumn(Mode(true, false), NullOnOne, [[Some(1)], [Some(0)]]) == Failure(NullReturned)
  {
    var rows, m := [[Some(1)], [Some(0)]], Mode(true, false);
    assert rows[1..] == [[Some(0)]] && CalledRows(m, rows) == rows;
    assert NullOnOne(rows[0]) == Value(None) && NullOnOne(rows[1]).Raise? && rows[..0] == [];
    assert NullBeforeRaise(NullOnOne, rows) && Raises(NullOnOne, rows);
    NativeNullError(m, NullOnOne, rows);
    ArrowColumnCells(m, NullOnOne, rows, None);
  }

  /** When errors become NULL and some row raises, the paths agree exactly if no
      called row returns NULL under default handling and no batch mixes a raising
      row with one that has a value. */
  lemma {:induction false} ArrowAgreesExactlyWhen<V>(m: Mode, f: RowUdf<V>, rows: seq<Row<V>>, batchSize: Option<int>)
    requires m.returnNull && Raises(f, CalledRows(m, rows))
    ensures ArrowColumn(m, f, rows, batchSize) == NativeColumn(m, f, rows) <==>
            (m.defaultNulls ==> !ReturnsNull(f, CalledRows(m, rows))) &&
            RaisingBatchesAreNull(f, TableBatches(CalledRows(m, rows), batchSize))
  {
    var called := CalledRows(m, rows);
    var batches := TableBatches(called, batchSize);
    ArrowColumnCells(m, f, rows, batchSize);
    NativeColumnCells(m, f, rows);
    TableBatchesJoin(called, batchSize);
    BatchCellsAgree(f, batches);
    ScatteredInjective(m, rows, BatchCells(f, batches), RowCells(f, called));
  }

  lemma {:induction false} NullCells<V>(f: RowUdf<V>, rows: seq<Row<V>>)
    requires !Raises(f, rows)
    ensures None in RowCells(f, rows) <==> ReturnsNull(f, rows)
  {
    if ReturnsNull(f, rows) {
      var i :| 0 <= i < |rows| && f(rows[i]) == Value(None);
      assert RowCells(f, rows)[i] == None;
    }
  }

  // A function that raises on one value only.
  function RaisesOnZero(row: Row<int>): Outcome<int> {
    if row == [Some(0)] then Raise else Value(Some(1))
  }

  // Errors turned into NULL: of two rows in one batch the first raises, and
  // the vectorised path loses the second one's value too.
  lemma {:induction false} MixedBatchDiffers()
    ensures ArrowColumn(Mode(true, true), RaisesOnZero, [[Some(0)], [Some(1)]], None)
         != NativeColumn(Mode(true, true), RaisesOnZero, [[Some(0)], [Some(1)]])
  {
    var rows, m := [[Some(0)], [Some(1)]], Mode(true, true);
    assert rows[1..] == [[Some(1)]];
    assert CalledRows(m, rows) == rows;
    assert RaisesOnZero(rows[0]).Raise?;
    var batches := TableBatches(rows, None);
    assert !AllNull(RaisesOnZero, rows) by { assert RaisesOnZero(rows[1]) == Value(Some(1)); }
    assert batches[0] == rows && !RaisingBatchesAreNull(RaisesOnZero, batches);
    ArrowAgreesExactlyWhen(m, RaisesOnZero, rows, None);
  }

  /** Under default handling a computed column is NULL exactly where the input
      row holds a NULL. */
  lemma {:induction false} NullsExactlyAtNullRows<V>(m: Mode, f: RowUdf<V>, rows: seq<Row<V>>)
    requires m.defaultNulls && !Raises(f, CalledRows(m, rows)) && NativeColumn(m, f, rows).Success?
    ensures |NativeColumn(m, f, rows).value| == |rows|
    ensures forall i :: 0 <= i < |rows| ==> (NativeColumn(m, f, rows).value[i] == None <==> None in rows[i])
  {
    if rows != [] {
      var called := CalledRows(m, rows);
      if !HasNull(rows[0]) {
        assert called[0] == rows[0] && called[1..] == CalledRows(m, rows[1..]);
        RaisesCons(f, called);
      } else {
        assert called == CalledRows(m, rows[1..]);
      }
      NullsExactlyAtNullRows(m, f, rows[1..]);
    }
  }

  // The row is called and its outcome is an error.
  ghost predicate Fails<V>(m: Mode, f: RowUdf<V>, row: Row<V>) {
    && !(m.defaultNulls && None in row)
    && (if f(row).Raise? then !m.returnNull else m.defaultNulls && f(row).cell == None)
  }

  /** The row path fails exactly when some row does, with the error of the first;
      otherwise a skipped or raising row is NULL and every other holds what the
      UDF returned. */
  lemma {:induction false} NativeExactlyWhen<V>(m: Mode, f: RowUdf<V>, rows: seq<Row<V>>)
    ensures NativeColumn(m, f, rows).Failure? <==> exists i :: 0 <= i < |rows| && Fails(m, f, rows[i])
    ensures forall i ::
              0 <= i < |rows| && Fails(m, f, rows[i]) && (forall j :: 0 <= j < i ==> !Fails(m, f, rows[j])) ==>
                NativeColumn(m, f, rows) == Failure(if f(rows[i]).Raise? then UdfRaised else NullReturned)
    ensures var r := NativeColumn(m, f, rows);
            r.Success? ==>
              && |r.value| == |rows|
              && forall i :: 0 <= i < |rows| ==>
                   var skipped := m.defaultNulls && None in rows[i];
                   r.value[i] == if skipped || f(rows[i]).Raise? then None else f(rows[i]).cell
  {
    if rows != [] {
      var rest := rows[1..];
      NativeExactlyWhen(m, f, rest);
      assert forall i :: 0 <= i < |rest| ==> rest[i] == rows[i + 1];
      assert HasNull(rows[0]) <==> None in rows[0];
      assert CellOf(m, f, rows[0]).Failure? <==> Fails(m, f, rows[0]);
      forall i | 0 < i < |rows| && Fails(m, f, rows[i]) && (forall j :: 0 <= j < i ==> !Fails(m, f, rows[j]))
        ensures NativeColumn(m, f, rows) == Failure(if f(rows[i]).Raise? then UdfRaised else NullReturned)
      {
        assert Fails(m, f, rest[i - 1]) && forall j :: 0 <= j < i - 1 ==> !Fails(m, f, rest[j]);
      }
    }
  }

  // ----- The column path as the runtime performs it --------------------------

  ghost predicate Rectangular<V>(columns: seq<seq<Cell<V>>>, n: nat) {
    forall k :: 0 <= k < |columns| ==> |columns[k]| == n
  }

  function RowAt<V>(columns: seq<seq<Cell<V>>>, n: nat, i: nat): (row: Row<V>)
    requires i < n && Rectangular(columns, n)
    ensures |row| == |columns| && forall k :: 0 <= k < |row| ==> row[k] == columns[k][i]
  {
    seq(|columns|, k requires 0 <= k < |columns| => columns[k][i])
  }

  function RowsOf<V>(columns: seq<seq<Cell<V>>>, n: nat): (rows: seq<Row<V>>)
    requires Rectangular(columns, n)
    ensures |rows| == n && forall i :: 0 <= i < n ==> rows[i] == RowAt(columns, n, i)
  {
    seq(n, i requires 0 <= i < n => RowAt(columns, n, i))
  }

  // Column by column, clears the mask at every row that holds a NULL.
  method BuildValidMask<V>(columns: seq<seq<Cell<V>>>, n: nat) returns (mask: array<bool>)
    requires Rectangular(columns, n)
    ensures fresh(mask) && mask.Length == n
    ensures forall i :: 0 <= i < n ==> (mask[i] <==> !HasNull(RowAt(columns, n, i)))
  {
    mask := new bool[n](_ => true);
    var c := 0;
    while c < |columns|
      invariant 0 <= c <= |columns|
      invariant forall i :: 0 <= i < n ==> (mask[i] <==> forall k :: 0 <= k < c ==> columns[k][i] != None)
    {
      MaskColumn(columns[c], mask);
      c := c + 1;
    }
    forall i | 0 <= i < n ensures mask[i] <==> !HasNull(RowAt(columns, n, i)) {
      var row := RowAt(columns, n, i);
      if mask[i] {
        assert forall k :: 0 <= k < |row| ==> row[k] == columns[k][i];
      } else {
        var k :| 0 <= k < |columns| && columns[k][i] == None;
        assert row[k] == None;
      }
    }
  }

  method MaskColumn<V>(column: seq<Cell<V>>, mask: array<bool>)
    requires |column| == mask.Length
    modifies mask
    ensures forall i :: 0 <= i < mask.Length ==> (mask[i] <==> old(mask[i]) && column[i] != None)
  {
    var i := 0;
    while i < |column|
      invariant 0 <= i <= |column|
      invariant forall j :: 0 <= j < i ==> (mask[j] <==> old(mask[j]) && column[j] != None)
      invariant forall j :: i <= j < mask.Length ==> mask[j] == old(mask[j])
    {
      if column[i] == None {
        mask[i] := false;
      }
      i := i + 1;
    }
  }

  // Positions of the called rows, in order.
  ghost function CalledIndices<V>(m: Mode, rows: seq<Row<V>>, base: nat): seq<nat> {
    if rows == [] then []
    else (if m.defaultNulls && HasNull(rows[0]) then [] else [base]) + CalledIndices(m, rows[1..], base + 1)
  }

  ghost predicate Selects<V>(rows: seq<Row<V>>, called: seq<Row<V>>, indices: seq<nat>, base: nat) {
    && |indices| == |called|
    && (forall k :: 0 <= k < |indices| ==> base <= indices[k] < base + |rows| && called[k] == rows[indices[k] - base])
    && (forall k, l :: 0 <= k < l < |indices| ==> indices[k] < indices[l])
  }

  lemma {:induction false} CalledIndicesSelect<V>(m: Mode, rows: seq<Row<V>>, base: nat)
    ensures Selects(rows, CalledRows(m, rows), CalledIndices(m, rows, base), base)
  {
    if rows != [] {
      CalledIndicesSelect(m, rows[1..], base + 1);
    }
  }

  lemma {:induction false} ScatteredLength<V>(m: Mode, rows: seq<Row<V>>, cells: seq<Cell<V>>)
    requires |cells| == |CalledRows(m, rows)|
    ensures |Scattered(m, rows, cells)| == |rows|
  {
    if rows != [] {
      if m.defaultNulls && HasNull(rows[0]) {
        ScatteredLength(m, rows[1..], cells);
      } else {
        ScatteredLength(m, rows[1..], cells[1..]);
      }
    }
  }

  lemma {:induction false} ScatteredAtCalled<V>(m: Mode, rows: seq<Row<V>>, cells: seq<Cell<V>>, base: nat, k: nat)
    requires k < |cells| == |CalledRows(m, rows)|
    ensures var indices := CalledIndices(m, rows, base);
            && k < |indices| && base <= indices[k] < base + |Scattered(m, rows, cells)|
            && Scattered(m, rows, cells)[indices[k] - base] == cells[k]
  {
    if m.defaultNulls && HasNull(rows[0]) {
      ScatteredAtCalled(m, rows[1..], cells, base + 1, k);
    } else if k > 0 {
      ScatteredAtCalled(m, rows[1..], cells[1..], base + 1, k - 1);
    }
  }

  lemma {:induction false} ScatteredAtSkipped<V>(m: Mode, rows: seq<Row<V>>, cells: seq<Cell<V>>, base: nat, i: nat)
    requires |cells| == |CalledRows(m, rows)| && i < |rows| && base + i !in CalledIndices(m, rows, base)
    ensures i < |Scattered(m, rows, cells)| && Scattered(m, rows, cells)[i] == None
  {
    if m.defaultNulls && HasNull(rows[0]) {
      if i > 0 {
        ScatteredAtSkipped(m, rows[1..], cells, base + 1, i - 1);
      }
    } else {
      assert CalledIndices(m, rows, base)[0] == base;
      ScatteredAtSkipped(m, rows[1..], cells[1..], base + 1, i - 1);
    }
  }

  method Scatter<V>(n: nat, indices: seq<nat>, cells: seq<Cell<V>>) returns (full: seq<Cell<V>>)
    requires |indices| == |cells|
    requires forall k :: 0 <= k < |indices| ==> indices[k] < n
    requires forall k, l :: 0 <= k < l < |indices| ==> indices[k] < indices[l]
    ensures |full| == n
    ensures forall k :: 0 <= k < |indices| ==> full[indices[k]] == cells[k]
    ensures forall i :: 0 <= i < n && i !in indices ==> full[i] == None
  {
    var values := new Cell<V>[n](_ => None);
    var k := 0;
    while k < |indices|
      invariant 0 <= k <= |indices|
      invariant forall j :: 0 <= j < k ==> values[indices[j]] == cells[j]
      invariant forall i :: 0 <= i < n && i !in indices ==> values[i] == None
    {
      values[indices[k]] := cells[k];
      k := k + 1;
    }
    full := values[..];
  }

  lemma {:induction false} ScatteredIsScatter<V>(m: Mode, rows: seq<Row<V>>, cells: seq<Cell<V>>, full: seq<Cell<V>>)
    requires |cells| == |CalledRows(m, rows)| == |CalledIndices(m, rows, 0)| && |full| == |rows|
    requires forall k :: 0 <= k < |cells| ==>
               CalledIndices(m, rows, 0)[k] < |full| && full[CalledIndices(m, rows, 0)[k]] == cells[k]
    requires forall i :: 0 <= i < |full| && i !in CalledIndices(m, rows, 0) ==> full[i] == None
    ensures full == Scattered(m, rows, cells)
  {
    ScatteredLength(m, rows, cells);
    forall i | 0 <= i < |full| ensures full[i] == Scattered(m, rows, cells)[i] {
      if i in CalledIndices(m, rows, 0) {
        var j :| 0 <= j < |cells| && CalledIndices(m, rows, 0)[j] == i;
        ScatteredAtCalled(m, rows, cells, 0, j);
      } else {
        ScatteredAtSkipped(m, rows, cells, 0, i);
      }
    }
  }

  // The rows that pass the mask, with their positions.
  method SelectValid<V>(rows: seq<Row<V>>, mask: array<bool>) returns (called: seq<Row<V>>, indices: seq<nat>)
    requires mask.Length == |rows| && forall i :: 0 <= i < |rows| ==> (mask[i] <==> !HasNull(rows[i]))
    ensures called == CalledRows(Mode(true, false), rows) && indices == CalledIndices(Mode(true, false), rows, 0)
  {
    var m := Mode(true, false);
    called, indices := [], [];
    var i := 0;
    assert rows[0..] == rows;
    while i < |rows|
      invariant 0 <= i <= |rows|
      invariant called + CalledRows(m, rows[i..]) == CalledRows(m, rows)
      invariant indices + CalledIndices(m, rows[i..], i) == CalledIndices(m, rows, 0)
    {
      assert rows[i..][0] == rows[i] && rows[i..][1..] == rows[i + 1..];
      if mask[i] {
        Assoc(called, [rows[i]], CalledRows(m, rows[i + 1..]));
        Assoc(indices, [i], CalledIndices(m, rows[i + 1..], i + 1));
        called, indices := called + [rows[i]], indices + [i];
      }
      i := i + 1;
    }
  }

  method ApplyBatches<V>(m: Mode, f: RowUdf<V>, batches: seq<seq<Row<V>>>) returns (r: Result<Column<V>, Error>)
    ensures r == BatchColumns(m, f, batches)
  {
    var cells: seq<Cell<V>>, raised := [], false;
    var i := 0;
    assert batches[0..] == batches;
    BatchesAfterEnds(BatchColumns(m, f, batches), [], false);
    while i < |batches|
      invariant 0 <= i <= |batches|
      invariant BatchesAfter(Column(cells, raised), BatchColumns(m, f, batches[i..])) == BatchColumns(m, f, batches)
    {
      BatchColumnsFrom(m, f, batches, i, Column(cells, raised));
      var out := Lifted(f, batches[i]);
      if out == None {
        if !m.returnNull {
          return Failure(UdfRaised);
        }
        raised := true;
        cells := cells + Nulls(|batches[i]|);
      } else {
        cells := cells + out.value;
      }
      i := i + 1;
    }
    BatchesAfterEnds(BatchColumns(m, f, batches), cells, raised);
    return Success(Column(cells, raised));
  }

  ghost function BatchesAfter<V>(c: Column<V>, r: Result<Column<V>, Error>): Result<Column<V>, Error> {
    if r.Failure? then r else Success(Column(c.cells + r.value.cells, c.raised || r.value.raised))
  }

  lemma {:induction false} BatchesAfterEnds<V>(r: Result<Column<V>, Error>, cells: seq<Cell<V>>, raised: bool)
    ensures BatchesAfter(Column([], false), r) == r
    ensures BatchesAfter(Column(cells, raised), Success(Column([], false))) == Success(Column(cells, raised))
  {
    assert cells + [] == cells;
    if r.Success? {
      assert [] + r.value.cells == r.value.cells;
    }
  }

  lemma {:induction false} BatchColumnsFrom<V>(m: Mode, f: RowUdf<V>, batches: seq<seq<Row<V>>>, i: nat, c: Column<V>)
    requires i < |batches|
    ensures BatchesAfter(c, BatchColumns(m, f, batches[i..])) ==
            var out := Lifted(f, batches[i]);
            if out == None && !m.returnNull then Failure(UdfRaised)
            else
              var cells := if out == None then Nulls(|batches[i]|) else out.value;
              BatchesAfter(Column(c.cells + cells, c.raised || out == None), BatchColumns(m, f, batches[i + 1..]))
  {
    assert batches[i..][0] == batches[i] && batches[i..][1..] == batches[i + 1..];
    var rest, out := BatchColumns(m, f, batches[i + 1..]), Lifted(f, batches[i]);
    if rest.Success? {
      Assoc(c.cells, if out == None then Nulls(|batches[i]|) else out.value, rest.value.cells);
    }
  }

  method ExecuteArrow<V(==)>(m: Mode, f: RowUdf<V>, columns: seq<seq<Cell<V>>>, n: nat, batchSize: Option<int>)
    returns (r: Result<seq<Cell<V>>, Error>)
    requires Rectangular(columns, n)
    ensures r == ArrowColumn(m, f, RowsOf(columns, n), batchSize)
  {
    var rows := RowsOf(columns, n);
    var called, indices := rows, [];
    if m.defaultNulls {
      var mask := BuildValidMask(columns, n);
      called, indices := SelectValid(rows, mask);
    }
    ModeIrrelevant(m, rows);
    var batches := IterTableBatches(called, batchSize);
    var column := ApplyBatches(m, f, batches);
    if column.Failure? {
      return Failure(column.error);
    }
    if m.defaultNulls && !column.value.raised && None in column.value.cells {
      return Failure(NullReturned);
    }
    BatchColumnsSize(m, f, called, batchSize);
    if m.defaultNulls {
      CalledIndicesSelect(m, rows, 0);
      var full := Scatter(n, indices, column.value.cells);
      ScatteredIsScatter(m, rows, column.value.cells, full);
      return Success(full);
    }
    ScatterNothing(m, rows, column.value.cells);
    return Success(column.value.cells);
  }

  // Which rows are called depends on the NULL handling alone.
  lemma {:induction false} ModeIrrelevant<V>(m: Mode, rows: seq<Row<V>>)
    ensures m.defaultNulls ==> CalledRows(m, rows) == CalledRows(Mode(true, false), rows)
    ensures m.defaultNulls ==> forall b: nat :: CalledIndices(m, rows, b) == CalledIndices(Mode(true, false), rows, b)
    ensures !m.defaultNulls ==> CalledRows(m, rows) == rows
  {
    if rows != [] {
      ModeIrrelevant(m, rows[1..]);
    }
  }

  lemma {:induction false} ScatterNothing<V>(m: Mode, rows: seq<Row<V>>, cells: seq<Cell<V>>)
    requires !m.defaultNulls && |cells| == |CalledRows(m, rows)|
    ensures Scattered(m, rows, cells) == cells
  {
    ModeIrrelevant(m, rows);
    if rows != [] {
      ScatterNothing(m, rows[1..], cells[1..]);
    }
  }
}
