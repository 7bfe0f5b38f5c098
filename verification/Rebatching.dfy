/**
  Re-batching of row streams: the runtime's output buffer, bounded in rows and
  bytes, and its input batcher, bounded in rows.  A table is a sequence of rows;
  the size Arrow reports for it is an arbitrary function, not assumed additive.
*/
module Rebatching {
  import opened Wrappers
  import opened Sequences

  type Table<Row> = seq<Row>

  datatype Error = NonPositiveRows | NonPositiveBytes | NoTarget

  // The targets of an output buffer, with the byte size Arrow reports.
  datatype Limits<!Row> = Limits(rows: Option<int>, bytes: Option<int>, nbytes: Table<Row> -> int) {
    predicate Ok() {
      && (rows.Some? ==> rows.value > 0)
      && (bytes.Some? ==> bytes.value > 0)
      && (rows.Some? || bytes.Some?)
    }

    // Every non-empty table counts at least one byte per row.
    function TableBytes(t: Table<Row>): (b: nat)
      ensures b >= |t| && b >= nbytes(t) && (b == |t| || b == nbytes(t))
    {
      Max(0, Max(nbytes(t), |t|))
    }

    function TotalBytes(tables: seq<Table<Row>>): nat {
      if tables == [] then 0 else TableBytes(tables[0]) + TotalBytes(tables[1..])
    }
  }

  ghost predicate NonEmptyTables<Row>(tables: seq<Table<Row>>) {
    forall i :: 0 <= i < |tables| ==> tables[i] != []
  }

  function CeilDiv(a: nat, b: nat): nat
    requires b > 0
  {
    (a + b - 1) / b
  }

  // ----- The buffer's decisions ---------------------------------------------

  ghost predicate ShouldFlush<Row>(l: Limits<Row>, tables: seq<Table<Row>>) {
    (l.rows.Some? && |Flatten(tables)| >= l.rows.value) || (l.bytes.Some? && l.TotalBytes(tables) >= l.bytes.value)
  }

  ghost function MaxRows<Row>(l: Limits<Row>, rowCount: nat): int {
    if l.rows == None then rowCount else Min(l.rows.value, rowCount)
  }

  // Rows that fit `remaining` bytes, walking the queue from its front; a table
  // that does not fit whole contributes rows by its average size.
  ghost function SelectRows<Row>(l: Limits<Row>, tables: seq<Table<Row>>, maxRows: int, selected: nat,
                                 remaining: nat): nat
    decreases |tables|
  {
    if tables == [] || selected >= maxRows then selected
    else
      var take := Min(|tables[0]|, maxRows - selected);
      if take <= 0 then SelectRows(l, tables[1..], maxRows, selected, remaining)
      else
        var size := l.TableBytes(tables[0][..take]);
        if size <= remaining then SelectRows(l, tables[1..], maxRows, selected + take, remaining - size)
        else
          var byBytes := RowsByBytes(remaining, size, take);
          if selected == 0 then Max(1, Min(take, byBytes)) else selected + Min(take, byBytes)
  }

  // Rows of average size that fit `remaining` bytes.
  function RowsByBytes(remaining: nat, size: nat, rows: nat): (n: nat)
    requires rows > 0
    ensures n * size <= remaining * rows
  {
    ShareFits(remaining, size, rows);
    remaining / Max(1, CeilDiv(size, rows))
  }

  lemma {:induction false} ShareFits(remaining: nat, size: nat, rows: nat)
    requires rows > 0
    ensures (remaining / Max(1, CeilDiv(size, rows))) * size <= remaining * rows
  {
    var share := Max(1, CeilDiv(size, rows));
    var n := remaining / share;
    CeilCovers(size, rows);
    assert n * share <= remaining;
    MulGrows(n, size, share * rows);
    MulGrows(rows, n * share, remaining);
    assert n * (share * rows) == rows * (n * share);
  }

  lemma {:induction false} CeilCovers(a: nat, b: nat)
    requires b > 0
    ensures a <= CeilDiv(a, b) * b
  {
    var n := a + b - 1;
    assert n == n / b * b + n % b;
  }

  lemma {:induction false} MulGrows(k: nat, a: nat, b: nat)
    requires a <= b
    ensures k * a <= k * b
  {
  }

  ghost function RowsToTake<Row>(l: Limits<Row>, tables: seq<Table<Row>>): int {
    var maxRows := MaxRows(l, |Flatten(tables)|);
    if l.bytes == None || l.bytes.value < 0 then maxRows
    else Max(1, Min(maxRows, SelectRows(l, tables, maxRows, 0, l.bytes.value)))
  }

  ghost function DropRows<Row>(tables: seq<Table<Row>>, n: nat): seq<Table<Row>> {
    if n == 0 || tables == [] then tables
    else if |tables[0]| <= n then DropRows(tables[1..], n - |tables[0]|)
    else [tables[0][n..]] + tables[1..]
  }

  lemma {:induction false} DropRowsDrops<Row>(tables: seq<Table<Row>>, n: nat)
    requires n <= |Flatten(tables)|
    ensures Flatten(DropRows(tables, n)) == Flatten(tables)[n..]
    ensures NonEmptyTables(tables) ==> NonEmptyTables(DropRows(tables, n))
  {
    if n != 0 && tables != [] {
      if |tables[0]| <= n {
        DropRowsDrops(tables[1..], n - |tables[0]|);
      } else {
        var rest := [tables[0][n..]] + tables[1..];
        assert rest[1..] == tables[1..];
      }
    }
  }

  lemma {:induction false} RowsToTakeInRange<Row>(l: Limits<Row>, tables: seq<Table<Row>>)
    requires l.Ok() && Flatten(tables) != []
    ensures 1 <= RowsToTake(l, tables) <= |Flatten(tables)|
    ensures l.rows.Some? ==> RowsToTake(l, tables) <= l.rows.value
  {
  }

  lemma {:induction false} FlushOnlyRows<Row>(l: Limits<Row>, tables: seq<Table<Row>>)
    requires l.Ok() && NonEmptyTables(tables) && ShouldFlush(l, tables)
    ensures Flatten(tables) != []
  {
    if tables != [] {
      assert tables[0] != [];
    }
  }

  // ----- Byte targets -------------------------------------------------------

  // The first n rows stay within the bytes: the tables in front of the last one
  // fit whole, and of the last one the rows taken fit by their average share.
  ghost predicate WithinBytes<Row>(l: Limits<Row>, tables: seq<Table<Row>>, maxRows: int, n: int, bytes: int)
    decreases |tables|
  {
    n <= 0 ||
    (&& tables != []
     && var take := Min(|tables[0]|, maxRows);
        if n <= take then n * l.TableBytes(tables[0][..take]) <= bytes * take
        else
          var size := l.TableBytes(tables[0]);
          size <= bytes && WithinBytes(l, tables[1..], maxRows - |tables[0]|, n - |tables[0]|, bytes - size))
  }

  // n rows in all, of which k were selected before, are right for these tables:
  // the one row that is always taken, or within the bytes.
  ghost predicate Fitting<Row>(l: Limits<Row>, tables: seq<Table<Row>>, maxRows: int, k: nat, n: nat, bytes: nat) {
    k <= n <= Max(1, maxRows) && ((k == 0 && n == 1) || WithinBytes(l, tables, maxRows - k, n - k, bytes))
  }

  lemma {:induction false} SelectedFitting<Row>(l: Limits<Row>, tables: seq<Table<Row>>, maxRows: int, k: nat,
                                                remaining: nat)
    requires NonEmptyTables(tables) && k <= maxRows
    ensures Fitting(l, tables, maxRows, k, SelectRows(l, tables, maxRows, k, remaining), remaining)
    decreases |tables|
  {
    if tables != [] && k < maxRows {
      assert tables[0] != [];
      var take := Min(|tables[0]|, maxRows - k);
      var size := l.TableBytes(tables[0][..take]);
      if size <= remaining {
        SelectedFitting(l, tables[1..], maxRows, k + take, remaining - size);
        WholeFitting(l, tables, maxRows, k, SelectRows(l, tables[1..], maxRows, k + take, remaining - size), remaining);
      } else {
        PartFits(l, tables, maxRows - k, remaining);
      }
    }
  }

  lemma {:induction false} WholeFitting<Row>(l: Limits<Row>, tables: seq<Table<Row>>, maxRows: int, k: nat, n: nat,
                                             bytes: nat)
    requires tables != [] && tables[0] != [] && k < maxRows
    requires var take := Min(|tables[0]|, maxRows - k);
             && l.TableBytes(tables[0][..take]) <= bytes
             && Fitting(l, tables[1..], maxRows, k + take, n, bytes - l.TableBytes(tables[0][..take]))
    ensures Fitting(l, tables, maxRows, k, n, bytes)
  {
    WholeTableFits(l, tables, maxRows - k, n - k, bytes);
  }

  lemma {:induction false} WholeTableFits<Row>(l: Limits<Row>, tables: seq<Table<Row>>, maxRows: int, n: int,
                                               bytes: nat)
    requires tables != [] && tables[0] != [] && 0 < maxRows && n <= maxRows
    requires var take := Min(|tables[0]|, maxRows);
             && take <= n && l.TableBytes(tables[0][..take]) <= bytes
             && WithinBytes(l, tables[1..], maxRows - take, n - take, bytes - l.TableBytes(tables[0][..take]))
    ensures WithinBytes(l, tables, maxRows, n, bytes)
  {
    var take := Min(|tables[0]|, maxRows);
    if n == take {
      MulGrows(take, l.TableBytes(tables[0][..take]), bytes);
    } else {
      assert tables[0][..take] == tables[0];
    }
  }

  lemma {:induction false} PartFits<Row>(l: Limits<Row>, tables: seq<Table<Row>>, maxRows: int, bytes: nat)
    requires tables != [] && tables[0] != [] && 0 < maxRows
    ensures var take := Min(|tables[0]|, maxRows);
            var size := l.TableBytes(tables[0][..take]);
            WithinBytes(l, tables, maxRows, Min(take, RowsByBytes(bytes, size, take)), bytes)
  {
    var take := Min(|tables[0]|, maxRows);
    var size := l.TableBytes(tables[0][..take]);
    var byBytes := RowsByBytes(bytes, size, take);
    MulGrows(size, Min(take, byBytes), byBytes);
    assert byBytes * size == size * byBytes;
  }

  /** What is taken for a byte target stays within it by the sizes Arrow reports,
      unless it is a single row. */
  lemma {:induction false} TakenWithinBytes<Row>(l: Limits<Row>, tables: seq<Table<Row>>)
    requires l.Ok() && NonEmptyTables(tables) && tables != [] && l.bytes.Some?
    ensures var n := RowsToTake(l, tables);
            n == 1 || WithinBytes(l, tables, MaxRows(l, |Flatten(tables)|), n, l.bytes.value)
  {
    assert tables[0] != [];
    var maxRows := MaxRows(l, |Flatten(tables)|);
    SelectedFitting(l, tables, maxRows, 0, l.bytes.value);
  }

  // ----- Appending and flushing ---------------------------------------------

  datatype Drained<Row> = Drained(out: seq<Table<Row>>, rest: seq<Table<Row>>)

  // What one append emits once the new table is queued.
  ghost function Drain<Row>(l: Limits<Row>, tables: seq<Table<Row>>): Drained<Row>
    requires l.Ok() && NonEmptyTables(tables)
    decreases |Flatten(tables)|
  {
    if !ShouldFlush(l, tables) then Drained([], tables)
    else
      FlushOnlyRows(l, tables);
      RowsToTakeInRange(l, tables);
      var n := RowsToTake(l, tables);
      DropRowsDrops(tables, n);
      var d := Drain(l, DropRows(tables, n));
      Drained([Flatten(tables)[..n]] + d.out, d.rest)
  }

  ghost function RowsToFlush<Row>(l: Limits<Row>, tables: seq<Table<Row>>): int {
    if l.bytes.Some? && l.TotalBytes(tables) > l.bytes.value then RowsToTake(l, tables)
    else if l.rows.Some? && |Flatten(tables)| > l.rows.value then l.rows.value
    else |Flatten(tables)|
  }

  lemma {:induction false} RowsToFlushInRange<Row>(l: Limits<Row>, tables: seq<Table<Row>>)
    requires l.Ok() && Flatten(tables) != []
    ensures 1 <= RowsToFlush(l, tables) <= |Flatten(tables)|
    ensures l.rows.Some? ==> RowsToFlush(l, tables) <= l.rows.value
  {
    RowsToTakeInRange(l, tables);
  }

  ghost function FlushRows<Row>(l: Limits<Row>, tables: seq<Table<Row>>): seq<Table<Row>>
    requires l.Ok()
    decreases |Flatten(tables)|
  {
    if Flatten(tables) == [] then []
    else
      RowsToFlushInRange(l, tables);
      var n := RowsToFlush(l, tables);
      DropRowsDrops(tables, n);
      [Flatten(tables)[..n]] + FlushRows(l, DropRows(tables, n))
  }

  datatype Buffer<Row> = Buffer(tables: seq<Table<Row>>, empty: Option<Table<Row>>, sawNonEmpty: bool)

  datatype Emission<Row> = Emission(buffer: Buffer<Row>, out: seq<Table<Row>>)

  ghost predicate BufferOk<Row>(b: Buffer<Row>) {
    && NonEmptyTables(b.tables)
    && (b.sawNonEmpty ==> b.empty == None)
    && (!b.sawNonEmpty ==> b.tables == [])
    && (b.empty.Some? ==> b.empty.value == [])
  }

  ghost function Appended<Row>(l: Limits<Row>, b: Buffer<Row>, t: Table<Row>): (e: Emission<Row>)
    requires l.Ok() && BufferOk(b)
    ensures BufferOk(e.buffer)
  {
    if t == [] then
      Emission(if !b.sawNonEmpty && b.empty == None then b.(empty := Some(t)) else b, [])
    else
      var d := Drain(l, b.tables + [t]);
      DrainKeepsRows(l, b.tables + [t]);
      Emission(Buffer(d.rest, None, true), d.out)
  }

  ghost function Flushed<Row>(l: Limits<Row>, b: Buffer<Row>): (e: Emission<Row>)
    requires l.Ok() && BufferOk(b)
    ensures BufferOk(e.buffer)
  {
    if b.tables != [] then Emission(b.(tables := []), FlushRows(l, b.tables))
    else if !b.sawNonEmpty && b.empty.Some? then Emission(b.(empty := None), [b.empty.value])
    else Emission(b, [])
  }

  ghost predicate WithinRows<Row>(l: Limits<Row>, out: seq<Table<Row>>) {
    forall i :: 0 <= i < |out| ==> out[i] != [] && (l.rows.Some? ==> |out[i]| <= l.rows.value)
  }

  lemma {:induction false} DrainKeepsRows<Row>(l: Limits<Row>, tables: seq<Table<Row>>)
    requires l.Ok() && NonEmptyTables(tables)
    ensures Flatten(Drain(l, tables).out) + Flatten(Drain(l, tables).rest) == Flatten(tables)
    ensures NonEmptyTables(Drain(l, tables).rest)
    decreases |Flatten(tables)|
  {
    if ShouldFlush(l, tables) {
      FlushOnlyRows(l, tables);
      RowsToTakeInRange(l, tables);
      var n, rows := RowsToTake(l, tables), Flatten(tables);
      DropRowsDrops(tables, n);
      var d := Drain(l, DropRows(tables, n));
      DrainKeepsRows(l, DropRows(tables, n));
      SplitOff(rows, n, d.out, d.rest);
    }
  }

  lemma {:induction false} SplitOff<Row>(rows: seq<Row>, n: nat, out: seq<Table<Row>>, rest: seq<Table<Row>>)
    requires n <= |rows| && Flatten(out) + Flatten(rest) == rows[n..]
    ensures Flatten([rows[..n]] + out) + Flatten(rest) == rows
  {
    FlattenCons(rows[..n], out);
    Rejoin(rows, n, Flatten(out), Flatten(rest));
  }

  lemma {:induction false} DrainWithinRows<Row>(l: Limits<Row>, tables: seq<Table<Row>>)
    requires l.Ok() && NonEmptyTables(tables)
    ensures WithinRows(l, Drain(l, tables).out)
    ensures l.rows.Some? ==> |Flatten(Drain(l, tables).rest)| < l.rows.value
    ensures l.bytes.Some? ==> l.TotalBytes(Drain(l, tables).rest) < l.bytes.value
    decreases |Flatten(tables)|
  {
    if ShouldFlush(l, tables) {
      FlushOnlyRows(l, tables);
      RowsToTakeInRange(l, tables);
      DropRowsDrops(tables, RowsToTake(l, tables));
      DrainWithinRows(l, DropRows(tables, RowsToTake(l, tables)));
    }
  }

  lemma {:induction false} FlushKeepsRows<Row>(l: Limits<Row>, tables: seq<Table<Row>>)
    requires l.Ok()
    ensures Flatten(FlushRows(l, tables)) == Flatten(tables) && WithinRows(l, FlushRows(l, tables))
    decreases |Flatten(tables)|
  {
    if Flatten(tables) != [] {
      var first, left := FlushOne(l, tables);
      FlushKeepsRows(l, left);
      FlattenCons(first, FlushRows(l, left));
      WithinRowsCons(l, first, FlushRows(l, left));
    }
  }

  lemma {:induction false} FlushOne<Row>(l: Limits<Row>, tables: seq<Table<Row>>)
    returns (first: Table<Row>, left: seq<Table<Row>>)
    requires l.Ok() && Flatten(tables) != []
    ensures FlushRows(l, tables) == [first] + FlushRows(l, left) && Flatten(tables) == first + Flatten(left)
    ensures first != [] && (l.rows.Some? ==> |first| <= l.rows.value)
  {
    RowsToFlushInRange(l, tables);
    var n, rows := RowsToFlush(l, tables), Flatten(tables);
    DropRowsDrops(tables, n);
    first, left := rows[..n], DropRows(tables, n);
    assert rows == rows[..n] + rows[n..];
  }

  lemma {:induction false} WithinRowsCons<Row>(l: Limits<Row>, first: Table<Row>, rest: seq<Table<Row>>)
    requires WithinRows(l, rest) && first != [] && (l.rows.Some? ==> |first| <= l.rows.value)
    ensures WithinRows(l, [first] + rest)
  {
  }

  // ----- Whole streams ------------------------------------------------------

  ghost function FreshBuffer<Row>(): (b: Buffer<Row>)
    ensures BufferOk(b)
  {
    Buffer([], None, false)
  }

  ghost function AppendedAll<Row>(l: Limits<Row>, b: Buffer<Row>, ts: seq<Table<Row>>): (e: Emission<Row>)
    requires l.Ok() && BufferOk(b)
    ensures BufferOk(e.buffer)
    decreases |ts|
  {
    if ts == [] then Emission(b, [])
    else
      var first := Appended(l, b, ts[0]);
      var rest := AppendedAll(l, first.buffer, ts[1..]);
      Emission(rest.buffer, first.out + rest.out)
  }

  // Everything the buffer emits for a stream of tables, appends then flush.
  ghost function Rebatched<Row>(l: Limits<Row>, ts: seq<Table<Row>>): seq<Table<Row>>
    requires l.Ok()
  {
    var e := AppendedAll(l, FreshBuffer<Row>(), ts);
    e.out + Flushed(l, e.buffer).out
  }

  lemma {:induction false} AppendedAllConcat<Row>(l: Limits<Row>, b: Buffer<Row>, ts: seq<Table<Row>>,
                                                  us: seq<Table<Row>>)
    requires l.Ok() && BufferOk(b)
    ensures var e := AppendedAll(l, b, ts); var f := AppendedAll(l, e.buffer, us);
            AppendedAll(l, b, ts + us) == Emission(f.buffer, e.out + f.out)
    decreases |ts|
  {
    if ts == [] {
      assert ts + us == us;
    } else {
      var first := Appended(l, b, ts[0]);
      AppendedAllConcat(l, first.buffer, ts[1..], us);
      AppendedAllCons(l, b, ts, us);
      var e := AppendedAll(l, first.buffer, ts[1..]);
      Assoc(first.out, e.out, AppendedAll(l, e.buffer, us).out);
    }
  }

  lemma {:induction false} AppendedAllCons<Row>(l: Limits<Row>, b: Buffer<Row>, ts: seq<Table<Row>>,
                                                us: seq<Table<Row>>)
    requires l.Ok() && BufferOk(b) && ts != []
    ensures var first := Appended(l, b, ts[0]); var rest := AppendedAll(l, first.buffer, ts[1..] + us);
            AppendedAll(l, b, ts + us) == Emission(rest.buffer, first.out + rest.out)
  {
    assert (ts + us)[0] == ts[0] && (ts + us)[1..] == ts[1..] + us;
  }

  lemma {:induction false} AppendedAllSnoc<Row>(l: Limits<Row>, b: Buffer<Row>, ts: seq<Table<Row>>, t: Table<Row>)
    requires l.Ok() && BufferOk(b)
    ensures var e := AppendedAll(l, b, ts); var f := Appended(l, e.buffer, t);
            AppendedAll(l, b, ts + [t]) == Emission(f.buffer, e.out + f.out)
  {
    AppendedAllConcat(l, b, ts, [t]);
    var f := Appended(l, AppendedAll(l, b, ts).buffer, t);
    assert [t][1..] == [] && f.out + [] == f.out;
  }

  lemma {:induction false} AppendedKeepsRows<Row>(l: Limits<Row>, b: Buffer<Row>, t: Table<Row>)
    requires l.Ok() && BufferOk(b)
    ensures var e := Appended(l, b, t);
            && Flatten(e.out) + Flatten(e.buffer.tables) == Flatten(b.tables) + t
            && WithinRows(l, e.out)
            && (e.buffer.sawNonEmpty <==> b.sawNonEmpty || t != [])
            && (e.buffer.empty.Some? || e.buffer.sawNonEmpty)
  {
    if t != [] {
      DrainKeepsRows(l, b.tables + [t]);
      DrainWithinRows(l, b.tables + [t]);
      FlattenSnoc(b.tables, t);
    }
  }

  lemma {:induction false} AppendedAllKeepsRows<Row>(l: Limits<Row>, b: Buffer<Row>, ts: seq<Table<Row>>)
    requires l.Ok() && BufferOk(b)
    ensures var e := AppendedAll(l, b, ts);
            && Flatten(e.out) + Flatten(e.buffer.tables) == Flatten(b.tables) + Flatten(ts)
            && WithinRows(l, e.out)
            && (e.buffer.sawNonEmpty <==> b.sawNonEmpty || Flatten(ts) != [])
            && (ts != [] ==> e.buffer.empty.Some? || e.buffer.sawNonEmpty)
    decreases |ts|
  {
    if ts != [] {
      var first := Appended(l, b, ts[0]);
      var rest := AppendedAll(l, first.buffer, ts[1..]);
      AppendedKeepsRows(l, b, ts[0]);
      AppendedAllKeepsRows(l, first.buffer, ts[1..]);
      FlattenConcat(first.out, rest.out);
      Regroup(Flatten(first.out), Flatten(rest.out), Flatten(rest.buffer.tables),
              Flatten(first.buffer.tables), Flatten(b.tables), ts[0], Flatten(ts[1..]));
    }
  }

  lemma {:induction false} Regroup<T>(f: seq<T>, r: seq<T>, q: seq<T>, m: seq<T>, b: seq<T>, t: seq<T>, u: seq<T>)
    requires f + m == b + t && r + q == m + u
    ensures (f + r) + q == b + (t + u)
  {
    Assoc(f, r, q);
    Assoc(f, m, u);
    Assoc(b, t, u);
  }

  /** For any byte measure the buffer emits every row exactly once and in order.
      It never emits more than the target rows at a time, and it emits an empty
      table, a single one, exactly when tables came in and all were empty. */
  lemma {:induction false} RebatchedStream<Row>(l: Limits<Row>, ts: seq<Table<Row>>)
    requires l.Ok()
    ensures Flatten(Rebatched(l, ts)) == Flatten(ts)
    ensures Flatten(ts) != [] ==> WithinRows(l, Rebatched(l, ts))
    ensures Flatten(ts) == [] ==> Rebatched(l, ts) == if ts == [] then [] else [[]]
  {
    var e := AppendedAll(l, FreshBuffer<Row>(), ts);
    AppendedAllKeepsRows(l, FreshBuffer<Row>(), ts);
    FlattenConcat(e.out, Flushed(l, e.buffer).out);
    assert Flatten<Row>([]) + Flatten(ts) == Flatten(ts);
    FlushKeepsRows(l, e.buffer.tables);
    FlattenOfEmpties(e.buffer.tables);
    FlattenOfEmpties(e.out);
  }

  // ----- Rows of equal weight -----------------------------------------------

  // By the size Arrow reports each row weighs w bytes, or, for w = 1, the rows
  // weigh at most one byte each.
  ghost predicate Weighs<Row>(l: Limits<Row>, w: nat, t: Table<Row>) {
    if w == 1 then l.nbytes(t) <= |t| else l.nbytes(t) == w * |t|
  }

  ghost predicate Uniform<Row(!new)>(l: Limits<Row>, w: nat) {
    w > 0 && forall t: Table<Row> {:trigger Weighs(l, w, t)} :: Weighs(l, w, t)
  }

  // The largest row count whose bytes do not exceed the target, at least one.
  ghost function RowsPerBatch<Row>(l: Limits<Row>, w: nat): (n: nat)
    requires l.Ok() && w > 0
    ensures n > 0
  {
    if l.bytes == None then l.rows.value
    else
      var byBytes := Max(1, l.bytes.value / w);
      if l.rows == None then byBytes else Min(l.rows.value, byBytes)
  }

  lemma {:induction false} UniformBytes<Row(!new)>(l: Limits<Row>, w: nat, t: Table<Row>)
    requires Uniform(l, w)
    ensures l.TableBytes(t) == w * |t|
  {
    assert Weighs(l, w, t);
    MulSplit(|t|, 1, w - 1);
  }

  lemma {:induction false} MulSplit(w: nat, a: nat, b: nat)
    ensures w * (a + b) == w * a + w * b
  {
  }

  lemma {:induction false} CeilOfMultiple(w: nat, c: nat)
    requires c > 0
    ensures CeilDiv(w * c, c) == w
  {
    DivUnique(w * c + c - 1, c, w, c - 1);
  }

  lemma {:induction false} DivUnique(n: int, d: int, q: int, r: int)
    requires d > 0 && n == q * d + r && 0 <= r < d
    ensures n / d == q
  {
    var q', r' := n / d, n % d;
    assert (q' - q) * d == r - r' && (q - q') * d == r' - r;
    if q' > q {
      MulAtLeast(q' - q, d);
    } else if q' < q {
      MulAtLeast(q - q', d);
    }
  }

  lemma {:induction false} MulAtLeast(k: int, d: int)
    requires k >= 1 && d > 0
    ensures k * d >= d
  {
  }

  // After k whole rows the byte target still holds bytes/w - k more.
  lemma {:induction false} RemainingRows(bytes: nat, w: nat, k: nat)
    requires w > 0 && w * k <= bytes
    ensures (bytes - w * k) / w == bytes / w - k && k <= bytes / w
  {
    var q, r := bytes / w, bytes % w;
    assert bytes == q * w + r;
    assert bytes - w * k == (q - k) * w + r;
    DivUnique(bytes - w * k, w, q - k, r);
  }

  lemma {:induction false} FitsIffFew(bytes: nat, w: nat, n: nat)
    requires w > 0
    ensures w * n <= bytes <==> n <= bytes / w
  {
    var q := bytes / w;
    assert w * q <= bytes;
    if n <= q {
      MulSplit(w, n, q - n);
    }
    if w * n <= bytes {
      RemainingRows(bytes, w, n);
    }
  }

  lemma {:induction false} FewRowsFit(bytes: nat, w: nat, n: nat)
    requires w > 0
    ensures n < bytes / w ==> w * n < bytes
  {
    if n < bytes / w {
      FitsIffFew(bytes, w, n + 1);
      MulSplit(w, n, 1);
    }
  }

  lemma {:induction false} UniformTotal<Row(!new)>(l: Limits<Row>, w: nat, tables: seq<Table<Row>>)
    requires Uniform(l, w)
    ensures l.TotalBytes(tables) == w * |Flatten(tables)|
  {
    if tables != [] {
      UniformBytes(l, w, tables[0]);
      UniformTotal(l, w, tables[1..]);
      MulSplit(w, |tables[0]|, |Flatten(tables[1..])|);
    }
  }

  // Walking the queue selects as many rows as the byte target divided by the
  // row weight allows.
  lemma {:induction false} UniformSelect<Row(!new)>(l: Limits<Row>, w: nat, tables: seq<Table<Row>>, maxRows: int,
                                                    k: nat, remaining: nat)
    requires Uniform(l, w) && NonEmptyTables(tables)
    requires k <= maxRows <= k + |Flatten(tables)| && 0 < maxRows
    ensures SelectRows(l, tables, maxRows, k, remaining) == Selected(maxRows, k, remaining / w)
    decreases |tables|
  {
    if tables == [] || k == maxRows {
      AllSelected(l, tables, maxRows, remaining, remaining / w);
    } else {
      assert tables[0] != [];
      var take := Min(|tables[0]|, maxRows - k);
      UniformSelectOne(l, w, tables, maxRows, k, remaining);
      EnoughLeft(tables, maxRows - k);
      if w * take <= remaining {
        UniformSelect(l, w, tables[1..], maxRows, k + take, remaining - w * take);
        SelectedFits(w, maxRows, k, take, remaining);
      } else {
        SelectedCut(w, maxRows, k, take, remaining);
      }
    }
  }

  lemma {:induction false} AllSelected<Row>(l: Limits<Row>, tables: seq<Table<Row>>, maxRows: nat, remaining: nat,
                                            fit: nat)
    requires maxRows > 0
    ensures SelectRows(l, tables, maxRows, maxRows, remaining) == maxRows == Selected(maxRows, maxRows, fit)
  {
  }

  lemma {:induction false} EnoughLeft<Row>(tables: seq<Table<Row>>, rows: nat)
    requires tables != [] && NonEmptyTables(tables) && rows <= |Flatten(tables)|
    ensures NonEmptyTables(tables[1..]) && rows - Min(|tables[0]|, rows) <= |Flatten(tables[1..])|
  {
  }

  // The rows selected in all when k are selected and `fit` more would fit.
  ghost function Selected(maxRows: nat, k: nat, fit: nat): nat {
    Min(maxRows, Max(1, k + fit))
  }

  lemma {:induction false} SelectedFits(w: nat, maxRows: nat, k: nat, take: nat, remaining: nat)
    requires w > 0 && w * take <= remaining
    ensures Selected(maxRows, k + take, (remaining - w * take) / w) == Selected(maxRows, k, remaining / w)
  {
    RemainingRows(remaining, w, take);
  }

  lemma {:induction false} SelectedCut(w: nat, maxRows: nat, k: nat, take: nat, remaining: nat)
    requires w > 0 && 0 < take <= maxRows - k && w * take > remaining
    ensures Selected(maxRows, k, remaining / w) == SelectedWithin(k, take, remaining / w)
  {
    FitsIffFew(remaining, w, take);
  }

  // The rows selected when the next `take` rows do not all fit.
  ghost function SelectedWithin(k: nat, take: nat, fit: nat): nat {
    if k == 0 then Max(1, Min(take, fit)) else k + Min(take, fit)
  }

  // What the first table of the queue contributes.
  lemma {:induction false} UniformSelectOne<Row(!new)>(l: Limits<Row>, w: nat, tables: seq<Table<Row>>, maxRows: int,
                                                       k: nat, remaining: nat)
    requires Uniform(l, w) && tables != [] && tables[0] != [] && k < maxRows
    ensures var take := Min(|tables[0]|, maxRows - k);
            SelectRows(l, tables, maxRows, k, remaining) ==
            if w * take <= remaining then SelectRows(l, tables[1..], maxRows, k + take, remaining - w * take)
            else SelectedWithin(k, take, remaining / w)
  {
    var take := Min(|tables[0]|, maxRows - k);
    UniformBytes(l, w, tables[0][..take]);
    CeilOfMultiple(w, take);
  }

  lemma {:induction false} UniformTake<Row(!new)>(l: Limits<Row>, w: nat, tables: seq<Table<Row>>)
    requires l.Ok() && Uniform(l, w) && NonEmptyTables(tables) && tables != []
    ensures RowsToTake(l, tables) == Min(|Flatten(tables)|, RowsPerBatch(l, w))
  {
    assert tables[0] != [];
    if l.bytes.Some? {
      UniformSelect(l, w, tables, MaxRows(l, |Flatten(tables)|), 0, l.bytes.value);
    }
  }

  lemma {:induction false} UniformFlush<Row(!new)>(l: Limits<Row>, w: nat, tables: seq<Table<Row>>)
    requires l.Ok() && Uniform(l, w) && NonEmptyTables(tables) && tables != []
    ensures RowsToFlush(l, tables) == Min(|Flatten(tables)|, RowsPerBatch(l, w))
  {
    UniformTake(l, w, tables);
    UniformTotal(l, w, tables);
    if l.bytes.Some? {
      FitsIffFew(l.bytes.value, w, |Flatten(tables)|);
    }
  }

  lemma {:induction false} UniformShouldFlush<Row(!new)>(l: Limits<Row>, w: nat, tables: seq<Table<Row>>)
    requires l.Ok() && Uniform(l, w) && NonEmptyTables(tables) && ShouldFlush(l, tables)
    ensures RowsToTake(l, tables) == RowsPerBatch(l, w)
  {
    UniformTotal(l, w, tables);
    FlushOnlyRows(l, tables);
    UniformTake(l, w, tables);
    if l.bytes.Some? {
      FewRowsFit(l.bytes.value, w, |Flatten(tables)|);
    }
  }

  lemma {:induction false} UniformDrain<Row(!new)>(l: Limits<Row>, w: nat, tables: seq<Table<Row>>)
    requires l.Ok() && Uniform(l, w) && NonEmptyTables(tables)
    ensures AllFull(Drain(l, tables).out, RowsPerBatch(l, w))
    decreases |Flatten(tables)|
  {
    if ShouldFlush(l, tables) {
      UniformShouldFlush(l, w, tables);
      FlushOnlyRows(l, tables);
      RowsToTakeInRange(l, tables);
      DropRowsDrops(tables, RowsToTake(l, tables));
      UniformDrain(l, w, DropRows(tables, RowsToTake(l, tables)));
    }
  }

  lemma {:induction false} UniformAppendedAll<Row(!new)>(l: Limits<Row>, w: nat, b: Buffer<Row>, ts: seq<Table<Row>>)
    requires l.Ok() && Uniform(l, w) && BufferOk(b)
    ensures AllFull(AppendedAll(l, b, ts).out, RowsPerBatch(l, w))
    decreases |ts|
  {
    if ts != [] {
      var first := Appended(l, b, ts[0]);
      if ts[0] != [] {
        UniformDrain(l, w, b.tables + [ts[0]]);
      }
      UniformAppendedAll(l, w, first.buffer, ts[1..]);
    }
  }

  lemma {:induction false} UniformFlushRows<Row(!new)>(l: Limits<Row>, w: nat, tables: seq<Table<Row>>)
    requires l.Ok() && Uniform(l, w) && NonEmptyTables(tables)
    ensures FlushRows(l, tables) == Chunks(Flatten(tables), RowsPerBatch(l, w))
    decreases |Flatten(tables)|
  {
    if Flatten(tables) != [] {
      UniformFlush(l, w, tables);
      RowsToFlushInRange(l, tables);
      var n, rows := RowsToFlush(l, tables), Flatten(tables);
      DropRowsDrops(tables, n);
      UniformFlushRows(l, w, DropRows(tables, n));
      assert rows[..|rows|] == rows && rows[|rows|..] == [];
    }
  }

  /** When all rows weigh the same, how a stream was fragmented into tables
      cannot be seen in the output: it is the row stream cut into consecutive
      batches of the same size, only the last of which may be shorter. */
  lemma {:induction false} FragmentationInvariance<Row(!new)>(l: Limits<Row>, w: nat, ts: seq<Table<Row>>)
    requires l.Ok() && Uniform(l, w) && Flatten(ts) != []
    ensures Rebatched(l, ts) == Chunks(Flatten(ts), RowsPerBatch(l, w))
  {
    var n, b := RowsPerBatch(l, w), FreshBuffer<Row>();
    var e := AppendedAll(l, b, ts);
    AppendedAllKeepsRows(l, b, ts);
    UniformAppendedAll(l, w, b, ts);
    UniformFlushRows(l, w, e.buffer.tables);
    ChunksCut(Flatten(e.buffer.tables), n);
    RebatchedStream(l, ts);
    ChunksUnique(Rebatched(l, ts), n);
  }

  // ----- The input batcher's cut of a stream --------------------------------

  // The batches of n rows and the rows left over are the stream.
  lemma {:induction false} FullBatchesThenLeftover<Row>(rows: seq<Row>, n: nat)
    requires n > 0
    ensures AllFull(FullBatches(rows, n), n) && |Leftover(rows, n)| < n
    ensures Flatten(FullBatches(rows, n)) + Leftover(rows, n) == rows
    decreases |rows|
  {
    if |rows| >= n {
      FullBatchesThenLeftover(rows[n..], n);
      var left := Leftover(rows[n..], n);
      FlattenOne(left);
      SplitOff(rows, n, FullBatches(rows[n..], n), [left]);
    }
  }

  // ----- Slicing one table --------------------------------------------------

  // A table that is small enough, or needs no slicing, is passed on whole,
  // even when it is empty.
  function TableBatches<Row>(t: Table<Row>, batchSize: Option<int>): seq<Table<Row>> {
    if batchSize == None || batchSize.value <= 0 || |t| <= batchSize.value then [t]
    else Chunks(t, batchSize.value)
  }

  method IterTableBatches<Row>(t: Table<Row>, batchSize: Option<int>) returns (out: seq<Table<Row>>)
    ensures out == TableBatches(t, batchSize)
    ensures Flatten(out) == t
    ensures batchSize == None || batchSize.value <= 0 || |t| <= batchSize.value ==> out == [t]
    ensures batchSize.Some? && batchSize.value > 0 && t != [] ==> ChunksOf(out, batchSize.value)
  {
    if batchSize == None || batchSize.value <= 0 || |t| <= batchSize.value {
      FlattenOne(t);
      return [t];
    }
    out := Sliced(t, batchSize.value);
    ChunksCut(t, batchSize.value);
  }

  method Sliced<Row>(t: Table<Row>, n: nat) returns (out: seq<Table<Row>>)
    requires n > 0
    ensures out == Chunks(t, n)
  {
    out := [];
    var start := 0;
    ghost var goal := Chunks(t, n);
    assert t[0..] == t && [] + goal == goal;
    while start < |t|
      invariant 0 <= start <= |t| && ChunksLeft(out, t[start..], n, goal)
    {
      var end := Min(start + n, |t|);
      CutChunk(t, n, start, end, out, goal);
      out := out + [t[start..end]];
      start := end;
    }
    AllChunksCut(out, t[start..], n, goal);
  }

  // ----- The objects --------------------------------------------------------

  // Removes the first `rows` rows from a queue of tables.
  method TakeRows<Row>(queue: seq<Table<Row>>, rows: nat) returns (table: Table<Row>, rest: seq<Table<Row>>)
    requires rows <= |Flatten(queue)|
    ensures table == Flatten(queue)[..rows] && rest == DropRows(queue, rows)
  {
    var pieces: seq<Table<Row>> := [];
    var remaining := rows;
    rest := queue;
    while remaining > 0
      invariant 0 <= remaining <= rows && remaining <= |Flatten(rest)|
      invariant Flatten(pieces) + Flatten(rest)[..remaining] == Flatten(queue)[..rows]
      invariant DropRows(rest, remaining) == DropRows(queue, rows)
      decreases remaining, |rest|
    {
      var t := rest[0];
      TakePiece(pieces, rest, remaining);
      if |t| <= remaining {
        pieces := pieces + [t];
        rest := rest[1..];
        remaining := remaining - |t|;
      } else {
        pieces := pieces + [t[..remaining]];
        rest := [t[remaining..]] + rest[1..];
        remaining := 0;
      }
    }
    table := Concat(pieces);
  }

  // Moving the first table, or its front, to the pieces keeps their join.
  lemma {:induction false} TakePiece<Row>(pieces: seq<Table<Row>>, rest: seq<Table<Row>>, n: nat)
    requires 0 < n <= |Flatten(rest)|
    ensures rest != []
    ensures var t := rest[0];
            if |t| <= n then
              Flatten(pieces + [t]) + Flatten(rest[1..])[..n - |t|] == Flatten(pieces) + Flatten(rest)[..n]
            else
              Flatten(pieces + [t[..n]]) == Flatten(pieces) + Flatten(rest)[..n]
  {
    var t := rest[0];
    if |t| <= n {
      FlattenSnoc(pieces, t);
      assert Flatten(rest)[..n] == t + Flatten(rest[1..])[..n - |t|];
      Assoc(Flatten(pieces), t, Flatten(rest[1..])[..n - |t|]);
    } else {
      FlattenSnoc(pieces, t[..n]);
      assert Flatten(rest)[..n] == t[..n];
    }
  }

  class RuntimeOutputBuffer<Row> {
    const limits: Limits<Row>
    var tables: seq<Table<Row>>
    var rowCount: nat
    var byteCount: nat
    var empty: Option<Table<Row>>
    var sawNonEmpty: bool

    ghost function View(): Buffer<Row>
      reads this
    {
      Buffer(tables, empty, sawNonEmpty)
    }

    // The cached counts are the true totals of the queue.
    ghost predicate Counted()
      reads this
    {
      rowCount == |Flatten(tables)| && byteCount == limits.TotalBytes(tables)
    }

    ghost predicate Valid()
      reads this
    {
      limits.Ok() && BufferOk(View()) && Counted()
    }

    constructor (limits: Limits<Row>)
      requires limits.Ok()
      ensures Valid() && this.limits == limits && View() == FreshBuffer()
    {
      this.limits := limits;
      tables, rowCount, byteCount, empty, sawNonEmpty := [], 0, 0, None, false;
    }

    static method Create(limits: Limits<Row>) returns (r: Result<RuntimeOutputBuffer<Row>, Error>)
      ensures r.Success? <==> limits.Ok()
      ensures r.Success? ==> fresh(r.value) && r.value.Valid() && r.value.limits == limits &&
                             r.value.View() == FreshBuffer()
    {
      if limits.rows.Some? && limits.rows.value <= 0 {
        return Failure(NonPositiveRows);
      }
      if limits.bytes.Some? && limits.bytes.value <= 0 {
        return Failure(NonPositiveBytes);
      }
      if limits.rows == None && limits.bytes == None {
        return Failure(NoTarget);
      }
      var buffer := new RuntimeOutputBuffer(limits);
      return Success(buffer);
    }

    method ShouldFlushNow() returns (flush: bool)
      requires Counted()
      ensures flush <==> ShouldFlush(limits, tables)
    {
      if limits.rows.Some? && rowCount >= limits.rows.value {
        return true;
      }
      return limits.bytes.Some? && byteCount >= limits.bytes.value;
    }

    method TakeRowsForLimits() returns (rows: nat)
      requires limits.Ok() && Counted()
      ensures rows == RowsToTake(limits, tables)
    {
      var maxRows := if limits.rows == None then rowCount else Min(limits.rows.value, rowCount);
      if limits.bytes == None {
        return maxRows;
      }
      var remaining, selected := limits.bytes.value, 0;
      ghost var goal := SelectRows(limits, tables, maxRows, 0, remaining);
      var i := 0;
      while i < |tables| && selected < maxRows
        invariant 0 <= i <= |tables| && remaining >= 0 && selected >= 0
        invariant SelectRows(limits, tables[i..], maxRows, selected, remaining) == goal
      {
        var table := tables[i];
        assert tables[i..][0] == table && tables[i..][1..] == tables[i + 1..];
        var candidateRows := Min(|table|, maxRows - selected);
        if candidateRows > 0 {
          var candidateBytes := limits.TableBytes(table[..candidateRows]);
          if candidateBytes <= remaining {
            selected := selected + candidateRows;
            remaining := remaining - candidateBytes;
          } else {
            var rowsByBytes := remaining / Max(1, CeilDiv(candidateBytes, candidateRows));
            selected := if selected == 0 then Max(1, Min(candidateRows, rowsByBytes))
                        else selected + Min(candidateRows, rowsByBytes);
            assert selected == goal;
            return Max(1, Min(maxRows, selected));
          }
        }
        i := i + 1;
      }
      return Max(1, Min(maxRows, selected));
    }

    method Take(rows: nat) returns (table: Table<Row>)
      requires Counted() && rows <= |Flatten(tables)|
      modifies this`tables, this`rowCount, this`byteCount
      ensures Counted()
      ensures table == Flatten(old(tables))[..rows] && tables == DropRows(old(tables), rows)
    {
      DropRowsDrops(tables, rows);
      table, tables := TakeRows(tables, rows);
      rowCount := rowCount - rows;
      byteCount := limits.TotalBytes(tables);
    }

    method Append(table: Table<Row>) returns (out: seq<Table<Row>>)
      requires Valid()
      modifies this
      ensures Valid()
      ensures Emission(View(), out) == Appended(limits, old(View()), table)
    {
      out := [];
      if |table| == 0 {
        if !sawNonEmpty && empty == None {
          empty := Some(table);
        }
        return;
      }
      Enqueue(table);
      out := DrainQueue();
    }

    method Enqueue(table: Table<Row>)
      requires Valid() && table != []
      modifies this
      ensures limits.Ok() && Counted()
      ensures View() == Buffer(old(tables) + [table], None, true)
    {
      FlattenSnoc(tables, table);
      TotalBytesSnoc(limits, tables, table);
      sawNonEmpty := true;
      empty := None;
      tables := tables + [table];
      rowCount := rowCount + |table|;
      byteCount := byteCount + limits.TableBytes(table);
    }

    method DrainQueue() returns (out: seq<Table<Row>>)
      requires limits.Ok() && Counted() && NonEmptyTables(tables)
      modifies this`tables, this`rowCount, this`byteCount
      ensures Counted() && NonEmptyTables(tables)
      ensures Drained(out, tables) == Drain(limits, old(tables))
    {
      out := [];
      ghost var start := tables;
      var flush := ShouldFlushNow();
      while flush
        invariant Counted() && NonEmptyTables(tables)
        invariant flush <==> ShouldFlush(limits, tables)
        invariant Drained(out + Drain(limits, tables).out, Drain(limits, tables).rest) == Drain(limits, start)
        decreases |Flatten(tables)|
      {
        FlushOnlyRows(limits, tables);
        RowsToTakeInRange(limits, tables);
        DropRowsDrops(tables, RowsToTake(limits, tables));
        var n := TakeRowsForLimits();
        var table := Take(n);
        Assoc(out, [table], Drain(limits, tables).out);
        out := out + [table];
        flush := ShouldFlushNow();
      }
    }

    method Flush() returns (out: seq<Table<Row>>)
      requires Valid()
      modifies this
      ensures Valid()
      ensures Emission(View(), out) == Flushed(limits, old(View()))
    {
      out := FlushQueue();
      if !sawNonEmpty && empty.Some? {
        out := out + [empty.value];
        empty := None;
      }
    }

    method RowsToFlushNow() returns (rows: nat)
      requires limits.Ok() && Counted()
      ensures rows == RowsToFlush(limits, tables)
    {
      if limits.bytes.Some? && byteCount > limits.bytes.value {
        rows := TakeRowsForLimits();
      } else if limits.rows.Some? && rowCount > limits.rows.value {
        rows := limits.rows.value;
      } else {
        rows := rowCount;
      }
    }

    method FlushQueue() returns (out: seq<Table<Row>>)
      requires limits.Ok() && Counted() && NonEmptyTables(tables)
      modifies this`tables, this`rowCount, this`byteCount
      ensures Counted() && tables == []
      ensures out == FlushRows(limits, old(tables))
    {
      out := [];
      ghost var start := tables;
      while rowCount > 0
        invariant Counted() && NonEmptyTables(tables)
        invariant out + FlushRows(limits, tables) == FlushRows(limits, start)
        decreases rowCount
      {
        RowsToFlushInRange(limits, tables);
        DropRowsDrops(tables, RowsToFlush(limits, tables));
        var n := RowsToFlushNow();
        var table := Take(n);
        Assoc(out, [table], FlushRows(limits, tables));
        out := out + [table];
      }
      FlattenOfEmpties(tables);
    }
  }

  lemma {:induction false} TotalBytesSnoc<Row>(l: Limits<Row>, tables: seq<Table<Row>>, t: Table<Row>)
    ensures l.TotalBytes(tables + [t]) == l.TotalBytes(tables) + l.TableBytes(t)
  {
    if tables == [] {
      assert [] + [t] == [t] && l.TotalBytes([t]) == l.TableBytes(t) + l.TotalBytes([t][1..]);
    } else {
      assert (tables + [t])[1..] == tables[1..] + [t];
      TotalBytesSnoc(l, tables[1..], t);
    }
  }

  class RuntimeInputBatcher<Row> {
    const targetRows: nat
    var tables: seq<Table<Row>>
    var rowCount: nat

    // The rows waiting for a full batch.
    ghost function Pending(): seq<Row>
      reads this
    {
      Flatten(tables)
    }

    ghost predicate Valid()
      reads this
    {
      targetRows > 0 && rowCount == |Pending()| < targetRows
    }

    constructor (targetRows: nat)
      requires targetRows > 0
      ensures Valid() && this.targetRows == targetRows && Pending() == []
    {
      this.targetRows := targetRows;
      tables, rowCount := [], 0;
    }

    static method Create(targetRows: int) returns (r: Result<RuntimeInputBatcher<Row>, Error>)
      ensures r.Success? <==> targetRows > 0
      ensures r.Success? ==> fresh(r.value) && r.value.Valid() && r.value.targetRows == targetRows &&
                             r.value.Pending() == []
    {
      if targetRows <= 0 {
        return Failure(NonPositiveRows);
      }
      var batcher := new RuntimeInputBatcher(targetRows);
      return Success(batcher);
    }

    method Append(table: Table<Row>) returns (out: seq<Table<Row>>)
      requires Valid()
      modifies this
      ensures Valid()
      ensures out == FullBatches(old(Pending()) + table, targetRows)
      ensures Pending() == Leftover(old(Pending()) + table, targetRows)
    {
      out := [];
      if |table| == 0 {
        assert Pending() + table == Pending();
        return;
      }
      FlattenSnoc(tables, table);
      ghost var all := Pending() + table;
      tables := tables + [table];
      rowCount := rowCount + |table|;
      while rowCount >= targetRows
        invariant targetRows > 0 && rowCount == |Pending()|
        invariant out + FullBatches(Pending(), targetRows) == FullBatches(all, targetRows)
        invariant Leftover(Pending(), targetRows) == Leftover(all, targetRows)
        decreases rowCount
      {
        DropRowsDrops(tables, targetRows);
        var batch;
        batch, tables := TakeRows(tables, targetRows);
        rowCount := rowCount - targetRows;
        Assoc(out, [batch], FullBatches(Pending(), targetRows));
        out := out + [batch];
      }
    }

    method Flush() returns (out: seq<Table<Row>>)
      requires Valid()
      modifies this
      ensures Valid() && Pending() == []
      ensures out == if old(Pending()) == [] then [] else [old(Pending())]
    {
      out := [];
      if rowCount > 0 {
        DropRowsDrops(tables, rowCount);
        ghost var before := Pending();
        var batch;
        batch, tables := TakeRows(tables, rowCount);
        rowCount := 0;
        out := [batch];
        assert before[..|before|] == before;
      }
    }
  }
}
