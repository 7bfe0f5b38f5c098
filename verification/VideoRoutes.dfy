/**
  The two ways a video source is read: through a manifest of path groups handed
  to a table UDF, and through a single task when a global frame limit is set.
*/
module VideoRoutes {
  import opened Wrappers
  import opened Sequences
  import opened VideoFrames

  // What the decoder finds at a path, and how a frame is resized.
  datatype Library<!F> = Library(frames: string -> seq<F>, basename: string -> string, resize: (F, int, int) -> F) {
    function FileRows(path: string, height: int, width: int): seq<FrameRow<F>> {
      VideoRows(basename(path), frames(path), (f: F) => resize(f, height, width))
    }

    function PathRows(paths: seq<string>, height: int, width: int): seq<FrameRow<F>> {
      if paths == [] then [] else FileRows(paths[0], height, width) + PathRows(paths[1..], height, width)
    }

    // A NULL path contributes nothing.
    function GroupRows(paths: seq<Option<string>>, height: int, width: int): seq<FrameRow<F>> {
      if paths == [] then []
      else
        (if paths[0].Some? then FileRows(paths[0].value, height, width) else []) +
        GroupRows(paths[1..], height, width)
    }
  }

  /** Every frame of a file is one row with the name of the file, its position, and
      the frame in the size asked for. */
  lemma {:induction false} FramesOfFile<F>(lib: Library<F>, path: string, height: int, width: int, i: nat)
    requires i < |lib.frames(path)|
    ensures |lib.FileRows(path, height, width)| == |lib.frames(path)|
    ensures lib.FileRows(path, height, width)[i] ==
            FrameRow(lib.basename(path), i, lib.resize(lib.frames(path)[i], height, width))
  {
  }

  // ----- Limits over concatenations -----------------------------------------

  function Less(limit: Option<int>, n: nat): Option<int> {
    if limit == None then None else Some(limit.value - n)
  }

  predicate Exhausted(limit: Option<int>) {
    limit.Some? && limit.value <= 0
  }

  lemma {:induction false} LimitedConcat<R>(limit: Option<int>, a: seq<R>, b: seq<R>)
    requires limit.Some? ==> limit.value >= 0
    ensures Limited(limit, a + b) == Limited(limit, a) + Limited(Less(limit, |Limited(limit, a)|), b)
    ensures Less(limit, |Limited(limit, a)|).Some? ==> Less(limit, |Limited(limit, a)|).value >= 0
  {
    if limit.Some? {
      var n := limit.value;
      if n <= |a| {
        assert (a + b)[..n] == a[..n];
      } else {
        var k := Min(n - |a|, |b|);
        assert (a + b)[..|a| + k] == a + b[..k];
        assert a[..|a|] == a;
      }
    }
  }

  lemma {:induction false} ExhaustedLimit<R>(limit: Option<int>, rows: seq<R>)
    requires Exhausted(limit)
    ensures Limited(limit, rows) == []
  {
  }

  // The rows leave something of the limit.
  predicate Unused<R>(limit: Option<int>, rows: seq<R>) {
    limit == None || |rows| < limit.value
  }

  lemma {:induction false} UnusedConcat<R>(limit: Option<int>, a: seq<R>, b: seq<R>)
    requires limit.Some? ==> limit.value >= 0
    ensures var rest := Less(limit, |Limited(limit, a)|);
            && (Unused(limit, a) <==> !Exhausted(rest))
            && (Unused(limit, a) ==> Limited(limit, a) == a)
            && (Unused(limit, a + b) <==> Unused(limit, a) && Unused(rest, b))
  {
  }

  // ----- Decoding a group of paths ------------------------------------------

  function TakeAtMost<R>(rows: seq<R>, n: int): seq<R> {
    rows[..Min(Max(0, n), |rows|)]
  }

  // Forwards the batches of one file while counting them against the limit.
  // The decoder never delivers more than the limit it was given, so cutting an
  // oversized batch is never needed.
  method Forward<R>(tables: seq<seq<R>>, limit: Option<int>) returns (out: seq<seq<R>>, rest: Option<int>, cut: bool)
    requires limit.Some? ==> |Flatten(tables)| <= limit.value
    requires forall i :: 0 <= i < |tables| ==> tables[i] != []
    ensures out == tables && rest == Less(limit, |Flatten(tables)|) && !cut
  {
    out, rest, cut := [], limit, false;
    var i := 0;
    assert tables[0..] == tables;
    while i < |tables|
      invariant 0 <= i <= |tables| && out == tables[..i] && !cut
      invariant |Flatten(out)| + |Flatten(tables[i..])| == |Flatten(tables)|
      invariant rest == Less(limit, |Flatten(out)|)
    {
      var batch := tables[i];
      assert tables[i..][0] == batch && tables[i..][1..] == tables[i + 1..];
      FlattenSnoc(out, batch);
      if rest.Some? {
        cut := cut || |batch| > rest.value;
        batch := TakeAtMost(batch, rest.value);
        assert batch == tables[i];
        rest := Some(rest.value - |batch|);
      }
      out := out + [batch];
      i := i + 1;
      if rest.Some? && rest.value <= 0 {
        NothingLeft(tables[i..]);
        break;
      }
    }
    assert out == tables;
  }

  lemma {:induction false} NothingLeft<R>(tables: seq<seq<R>>)
    requires |Flatten(tables)| == 0 && forall i :: 0 <= i < |tables| ==> tables[i] != []
    ensures tables == []
  {
    FlattenOfEmpties(tables);
  }

  method DecodeFile<F(0)>(lib: Library<F>, path: string, height: int, width: int, maxBytes: int, limit: Option<int>)
    returns (tables: seq<seq<FrameRow<F>>>, rest: Option<int>)
    requires limit.Some? ==> limit.value >= 0
    ensures var rows := Limited(limit, lib.FileRows(path, height, width));
            && tables == Chunks(rows, OutputBatchSize(height, width, maxBytes))
            && Flatten(tables) == rows && rest == Less(limit, |rows|)
  {
    var n := OutputBatchSize(height, width, maxBytes);
    var batches := DecodeVideo(lib.basename(path), lib.frames(path), (f: F) => lib.resize(f, height, width), n, limit);
    ChunksCut(Limited(limit, lib.FileRows(path, height, width)), n);
    var cut;
    tables, rest, cut := Forward(batches, limit);
  }

  // What is done and what the remaining paths still give under the limit make up
  // the whole.
  ghost predicate GroupLeft<F>(lib: Library<F>, paths: seq<Option<string>>, height: int, width: int, limit: Option<int>,
                               done: seq<FrameRow<F>>, goal: seq<FrameRow<F>>)
  {
    && (limit.Some? ==> limit.value >= 0)
    && done + Limited(limit, lib.GroupRows(paths, height, width)) == goal
  }

  lemma {:induction false} GroupStep<F>(lib: Library<F>, paths: seq<Option<string>>, height: int, width: int,
                                        limit: Option<int>, done: seq<FrameRow<F>>, goal: seq<FrameRow<F>>)
    requires paths != [] && paths[0].Some? && GroupLeft(lib, paths, height, width, limit, done, goal)
    ensures var now := Limited(limit, lib.FileRows(paths[0].value, height, width));
            GroupLeft(lib, paths[1..], height, width, Less(limit, |now|), done + now, goal)
  {
    var file, after := lib.FileRows(paths[0].value, height, width), lib.GroupRows(paths[1..], height, width);
    LimitedConcat(limit, file, after);
    Assoc(done, Limited(limit, file), Limited(Less(limit, |Limited(limit, file)|), after));
  }

  lemma {:induction false} GroupDone<F>(lib: Library<F>, paths: seq<Option<string>>, height: int, width: int,
                                        limit: Option<int>, done: seq<FrameRow<F>>, goal: seq<FrameRow<F>>)
    requires GroupLeft(lib, paths, height, width, limit, done, goal) && (paths == [] || Exhausted(limit))
    ensures done == goal
  {
    if Exhausted(limit) {
      ExhaustedLimit(limit, lib.GroupRows(paths, height, width));
    }
    assert done + [] == done;
  }

  // The paths in front of the first NULL.
  function BeforeNull(paths: seq<Option<string>>): seq<Option<string>> {
    if paths == [] || paths[0] == None then [] else [paths[0]] + BeforeNull(paths[1..])
  }

  lemma {:induction false} BeforeNullRows<F>(lib: Library<F>, paths: seq<Option<string>>, height: int, width: int,
                                             limit: Option<int>)
    requires limit.Some? ==> limit.value >= 0
    ensures Limited(limit, lib.GroupRows(BeforeNull(paths), height, width)) <=
            Limited(limit, lib.GroupRows(paths, height, width))
    decreases |paths|
  {
    if paths != [] && paths[0].Some? {
      var file := lib.FileRows(paths[0].value, height, width);
      var rest := Less(limit, |Limited(limit, file)|);
      assert BeforeNull(paths)[1..] == BeforeNull(paths[1..]);
      LimitedConcat(limit, file, lib.GroupRows(BeforeNull(paths[1..]), height, width));
      LimitedConcat(limit, file, lib.GroupRows(paths[1..], height, width));
      BeforeNullRows(lib, paths[1..], height, width, rest);
    }
  }

  // Whether walking the paths meets a NULL before the limit stops the walk.
  ghost predicate GroupFails<F>(lib: Library<F>, paths: seq<Option<string>>, height: int, width: int,
                                limit: Option<int>)
    decreases |paths|
  {
    && paths != []
    && (paths[0] == None ||
        (&& !Exhausted(limit)
         && GroupFails(lib, paths[1..], height, width,
                       Less(limit, |Limited(limit, lib.FileRows(paths[0].value, height, width))|))))
  }

  // A NULL path is met when the paths before its predecessor leave some of the
  // limit: the walk looks at a path before it looks at the limit.
  ghost predicate NullReached<F>(lib: Library<F>, paths: seq<Option<string>>, height: int, width: int,
                                 limit: Option<int>)
  {
    exists i :: 0 <= i < |paths| && NullReachedAt(lib, paths, height, width, limit, i)
  }

  ghost predicate NullReachedAt<F>(lib: Library<F>, paths: seq<Option<string>>, height: int, width: int,
                                   limit: Option<int>, i: nat)
    requires i < |paths|
  {
    paths[i] == None && (i == 0 || Unused(limit, lib.GroupRows(paths[..i - 1], height, width)))
  }

  lemma {:induction false} GroupFailsExactlyWhen<F>(lib: Library<F>, paths: seq<Option<string>>, height: int,
                                                    width: int, limit: Option<int>)
    requires limit.Some? ==> limit.value >= 0
    ensures GroupFails(lib, paths, height, width, limit) <==> NullReached(lib, paths, height, width, limit)
    decreases |paths|
  {
    if paths == [] {
    } else if paths[0] == None {
      assert NullReachedAt(lib, paths, height, width, limit, 0);
    } else {
      var rest, limit' := paths[1..], Less(limit, |Limited(limit, lib.FileRows(paths[0].value, height, width))|);
      LimitedConcat(limit, lib.FileRows(paths[0].value, height, width), []);
      GroupFailsExactlyWhen(lib, rest, height, width, limit');
      forall j | 0 <= j < |rest|
        ensures NullReachedAt(lib, paths, height, width, limit, j + 1) <==>
                !Exhausted(limit) && NullReachedAt(lib, rest, height, width, limit', j)
      {
        NullReachedLater(lib, paths, height, width, limit, j);
      }
      if NullReached(lib, paths, height, width, limit) {
        var i :| 0 <= i < |paths| && NullReachedAt(lib, paths, height, width, limit, i);
        assert NullReachedAt(lib, rest, height, width, limit', i - 1);
      }
      if !Exhausted(limit) && NullReached(lib, rest, height, width, limit') {
        var j :| 0 <= j < |rest| && NullReachedAt(lib, rest, height, width, limit', j);
        assert NullReachedAt(lib, paths, height, width, limit, j + 1);
      }
    }
  }

  lemma {:induction false} NullReachedLater<F>(lib: Library<F>, paths: seq<Option<string>>, height: int, width: int,
                                               limit: Option<int>, j: nat)
    requires j + 1 < |paths| && paths[0].Some? && (limit.Some? ==> limit.value >= 0)
    ensures var limit' := Less(limit, |Limited(limit, lib.FileRows(paths[0].value, height, width))|);
            NullReachedAt(lib, paths, height, width, limit, j + 1) <==>
            !Exhausted(limit) && NullReachedAt(lib, paths[1..], height, width, limit', j)
  {
    if j == 0 {
      assert paths[..0] == [];
    } else {
      assert paths[..j][0] == paths[0] && paths[..j][1..] == paths[1..][..j - 1];
      UnusedConcat(limit, lib.FileRows(paths[0].value, height, width),
                   lib.GroupRows(paths[1..][..j - 1], height, width));
    }
  }

  // What a generator yields before it ends or raises.
  datatype Yield<F> = Yield(tables: seq<seq<FrameRow<F>>>, failure: Option<Error>) {
    function Then(next: Yield<F>): Yield<F> {
      Yield(tables + next.tables, next.failure)
    }
  }

  // A walk over the paths is on its way to `goal`, or, when it is to fail, to `part`.
  ghost predicate WalkLeft<F>(lib: Library<F>, paths: seq<Option<string>>, height: int, width: int, limit: Option<int>,
                              done: seq<FrameRow<F>>, goal: seq<FrameRow<F>>, part: seq<FrameRow<F>>, fails: bool)
  {
    && GroupFails(lib, paths, height, width, limit) == fails
    && GroupLeft(lib, paths, height, width, limit, done, goal)
    && GroupLeft(lib, BeforeNull(paths), height, width, limit, done, part)
  }

  lemma {:induction false} WalkStarts<F>(lib: Library<F>, paths: seq<Option<string>>, height: int, width: int,
                                         limit: Option<int>)
    requires limit.Some? ==> limit.value >= 0
    ensures WalkLeft(lib, paths, height, width, limit, [], Limited(limit, lib.GroupRows(paths, height, width)),
                     Limited(limit, lib.GroupRows(BeforeNull(paths), height, width)),
                     NullReached(lib, paths, height, width, limit))
  {
    GroupFailsExactlyWhen(lib, paths, height, width, limit);
  }

  lemma {:induction false} WalkEnds<F>(lib: Library<F>, paths: seq<Option<string>>, height: int, width: int,
                                       limit: Option<int>, done: seq<FrameRow<F>>, goal: seq<FrameRow<F>>,
                                       part: seq<FrameRow<F>>, fails: bool)
    requires WalkLeft(lib, paths, height, width, limit, done, goal, part, fails)
    ensures paths != [] && paths[0] == None ==> fails && done == part
    ensures paths == [] || (paths[0].Some? && Exhausted(limit)) ==> !fails && done == goal
  {
    if paths != [] && paths[0] == None {
      GroupDone(lib, [], height, width, limit, done, part);
    } else if paths == [] || Exhausted(limit) {
      GroupDone(lib, paths, height, width, limit, done, goal);
    }
  }

  lemma {:induction false} WalkStep<F>(lib: Library<F>, paths: seq<Option<string>>, height: int, width: int,
                                       limit: Option<int>, done: seq<FrameRow<F>>, goal: seq<FrameRow<F>>,
                                       part: seq<FrameRow<F>>, fails: bool)
    requires paths != [] && paths[0].Some? && !Exhausted(limit)
    requires WalkLeft(lib, paths, height, width, limit, done, goal, part, fails)
    ensures var now := Limited(limit, lib.FileRows(paths[0].value, height, width));
            WalkLeft(lib, paths[1..], height, width, Less(limit, |now|), done + now, goal, part, fails)
  {
    assert BeforeNull(paths)[0] == paths[0] && BeforeNull(paths)[1..] == BeforeNull(paths[1..]);
    GroupStep(lib, paths, height, width, limit, done, goal);
    GroupStep(lib, BeforeNull(paths), height, width, limit, done, part);
  }

  // Decodes one more path of a group.
  method DecodeNext<F(0)>(lib: Library<F>, paths: seq<Option<string>>, i: nat, height: int, width: int, maxBytes: int,
                          ghost limit: Option<int>, out: seq<seq<FrameRow<F>>>, rest: Option<int>,
                          ghost goal: seq<FrameRow<F>>, ghost part: seq<FrameRow<F>>, ghost fails: bool)
    returns (more: seq<seq<FrameRow<F>>>, left: Option<int>)
    requires i < |paths| && paths[i].Some? && !Exhausted(rest) && rest == Less(limit, |Flatten(out)|)
    requires WalkLeft(lib, paths[i..], height, width, rest, Flatten(out), goal, part, fails)
    ensures left == Less(limit, |Flatten(more)|)
    ensures WalkLeft(lib, paths[i + 1..], height, width, left, Flatten(more), goal, part, fails)
  {
    assert paths[i..][0] == paths[i] && paths[i..][1..] == paths[i + 1..];
    WalkStep(lib, paths[i..], height, width, rest, Flatten(out), goal, part, fails);
    var tables;
    tables, left := DecodeFile(lib, paths[i].value, height, width, maxBytes, rest);
    FlattenConcat(out, tables);
    more := out + tables;
  }

  method DecodeGroup<F(0)>(lib: Library<F>, paths: seq<Option<string>>, height: int, width: int, maxBytes: int,
                           limit: Option<int>)
    returns (y: Yield<F>, rest: Option<int>)
    requires limit.Some? ==> limit.value >= 0
    ensures y.failure == if NullReached(lib, paths, height, width, limit) then Some(NullPath) else None
    ensures y.failure.Some? ==> Flatten(y.tables) == Limited(limit, lib.GroupRows(BeforeNull(paths), height, width))
    ensures y.failure == None ==>
              var rows := Limited(limit, lib.GroupRows(paths, height, width));
              Flatten(y.tables) == rows && rest == Less(limit, |rows|)
  {
    var out: seq<seq<FrameRow<F>>> := [];
    rest := limit;
    ghost var goal := Limited(limit, lib.GroupRows(paths, height, width));
    ghost var part := Limited(limit, lib.GroupRows(BeforeNull(paths), height, width));
    ghost var fails := NullReached(lib, paths, height, width, limit);
    WalkStarts(lib, paths, height, width, limit);
    assert paths[0..] == paths;
    var i := 0;
    while i < |paths|
      invariant 0 <= i <= |paths| && rest == Less(limit, |Flatten(out)|)
      invariant WalkLeft(lib, paths[i..], height, width, rest, Flatten(out), goal, part, fails)
    {
      WalkEnds(lib, paths[i..], height, width, rest, Flatten(out), goal, part, fails);
      if paths[i] == None {
        return Yield(out, Some(NullPath)), rest;
      }
      if Exhausted(rest) {
        return Yield(out, None), rest;
      }
      out, rest := DecodeNext(lib, paths, i, height, width, maxBytes, limit, out, rest, goal, part, fails);
      i := i + 1;
    }
    WalkEnds(lib, paths[i..], height, width, rest, Flatten(out), goal, part, fails);
    y := Yield(out, None);
  }

  // ----- The manifest route -------------------------------------------------

  datatype ManifestRow = ManifestRow(
    paths: seq<Option<string>>,
    height: Option<int>,
    width: Option<int>,
    maxBytes: Option<int>,
    frameLimit: Option<int>)
  {
    predicate NullValue() {
      height == None || width == None || maxBytes == None
    }

    predicate HasNull() {
      NullValue() || None in paths
    }

    function Height(): int { if height.Some? then height.value else 0 }

    function Width(): int { if width.Some? then width.value else 0 }

    function TargetRows(): (n: nat)
      ensures n > 0
    {
      OutputBatchSize(Height(), Width(), if maxBytes.Some? then maxBytes.value else 0)
    }
  }

  // The first limit given applies to the whole manifest.
  function FrameLimit(rows: seq<ManifestRow>): (limit: Option<int>)
    ensures limit.Some? ==> limit.value >= 0
  {
    if rows == [] then None
    else if rows[0].frameLimit.Some? then Some(Max(0, rows[0].frameLimit.value))
    else FrameLimit(rows[1..])
  }

  /** There is a limit exactly when some row gives one, and the first to do so
      decides, with a negative limit read as zero. */
  lemma {:induction false} FirstLimitCounts(rows: seq<ManifestRow>, i: nat)
    requires i <= |rows| && forall j :: 0 <= j < i ==> rows[j].frameLimit == None
    ensures FrameLimit(rows) == if i == |rows| then None
                                else if rows[i].frameLimit.Some? then Some(Max(0, rows[i].frameLimit.value))
                                else FrameLimit(rows[i + 1..])
  {
    if i > 0 {
      FirstLimitCounts(rows[1..], i - 1);
      assert i < |rows| ==> rows[1..][i..] == rows[i + 1..];
    }
  }

  ghost function ManifestFrames<F>(lib: Library<F>, rows: seq<ManifestRow>): seq<FrameRow<F>> {
    if rows == [] then []
    else lib.GroupRows(rows[0].paths, rows[0].Height(), rows[0].Width()) + ManifestFrames(lib, rows[1..])
  }

  // The tables yielded group by group, each group cut to its own target size.
  ghost function RouteTables<F>(lib: Library<F>, rows: seq<ManifestRow>, limit: Option<int>): seq<seq<FrameRow<F>>> {
    if rows == [] then []
    else
      var group := Limited(limit, lib.GroupRows(rows[0].paths, rows[0].Height(), rows[0].Width()));
      var rest := Less(limit, |group|);
      Chunks(group, rows[0].TargetRows()) + (if Exhausted(rest) then [] else RouteTables(lib, rows[1..], rest))
  }

  /** The manifest route yields the first frames of the whole manifest, in path
      order, up to the limit. */
  lemma {:induction false} RouteRows<F>(lib: Library<F>, rows: seq<ManifestRow>, limit: Option<int>)
    requires limit.Some? ==> limit.value >= 0
    ensures Flatten(RouteTables(lib, rows, limit)) == Limited(limit, ManifestFrames(lib, rows))
    decreases |rows|
  {
    if rows != [] {
      var all := lib.GroupRows(rows[0].paths, rows[0].Height(), rows[0].Width());
      var group := Limited(limit, all);
      var rest := Less(limit, |group|);
      LimitedConcat(limit, all, ManifestFrames(lib, rows[1..]));
      ChunksCut(group, rows[0].TargetRows());
      if Exhausted(rest) {
        ExhaustedLimit(rest, ManifestFrames(lib, rows[1..]));
        FlattenConcat(Chunks(group, rows[0].TargetRows()), []);
      } else {
        RouteRows(lib, rows[1..], rest);
        FlattenConcat(Chunks(group, rows[0].TargetRows()), RouteTables(lib, rows[1..], rest));
      }
    }
  }

  // Whether one row fails when `limit` frames are left.
  ghost predicate RowFails<F>(lib: Library<F>, row: ManifestRow, limit: Option<int>) {
    row.NullValue() || NullReached(lib, row.paths, row.Height(), row.Width(), limit)
  }

  ghost function RowFrames<F>(lib: Library<F>, row: ManifestRow): seq<FrameRow<F>> {
    lib.GroupRows(row.paths, row.Height(), row.Width())
  }

  // What one row yields: all its tables; nothing before a NULL value; and the
  // full tables of the paths in front of a NULL path.
  ghost function RowYield<F>(lib: Library<F>, row: ManifestRow, limit: Option<int>): Yield<F> {
    if row.NullValue() then
      Yield([], Some(NullManifestValue))
    else if RowFails(lib, row, limit) then
      var rows := Limited(limit, lib.GroupRows(BeforeNull(row.paths), row.Height(), row.Width()));
      Yield(FullBatches(rows, row.TargetRows()), Some(NullPath))
    else
      Yield(Chunks(Limited(limit, RowFrames(lib, row)), row.TargetRows()), None)
  }

  // What the rows yield one after the other.
  ghost function RouteYield<F>(lib: Library<F>, rows: seq<ManifestRow>, limit: Option<int>): Yield<F>
    decreases |rows|
  {
    if rows == [] then Yield([], None)
    else
      var now := RowYield(lib, rows[0], limit);
      var rest := Less(limit, |Limited(limit, RowFrames(lib, rows[0]))|);
      if now.failure.Some? || Exhausted(rest) then now else now.Then(RouteYield(lib, rows[1..], rest))
  }

  // A row is reached when the rows before it leave some of the limit, and fails
  // with what they leave.
  ghost predicate RowFailsAt<F>(lib: Library<F>, rows: seq<ManifestRow>, limit: Option<int>, i: nat)
    requires i < |rows|
  {
    var before := ManifestFrames(lib, rows[..i]);
    (i == 0 || Unused(limit, before)) && RowFails(lib, rows[i], Less(limit, |before|))
  }

  ghost predicate SomeRowFails<F>(lib: Library<F>, rows: seq<ManifestRow>, limit: Option<int>) {
    exists i :: 0 <= i < |rows| && RowFailsAt(lib, rows, limit, i)
  }

  lemma {:induction false} RowFailsFirst<F>(lib: Library<F>, rows: seq<ManifestRow>, limit: Option<int>)
    requires rows != []
    ensures RowFailsAt(lib, rows, limit, 0) <==> RowFails(lib, rows[0], limit)
  {
    assert rows[..0] == [] && Less(limit, 0) == limit;
  }

  lemma {:induction false} RowFailsLater<F>(lib: Library<F>, rows: seq<ManifestRow>, limit: Option<int>, j: nat)
    requires j + 1 < |rows| && (limit.Some? ==> limit.value >= 0)
    ensures var rest := Less(limit, |Limited(limit, RowFrames(lib, rows[0]))|);
            RowFailsAt(lib, rows, limit, j + 1) <==> !Exhausted(rest) && RowFailsAt(lib, rows[1..], rest, j)
  {
    assert rows[..j + 1][0] == rows[0] && rows[..j + 1][1..] == rows[1..][..j];
    var before := ManifestFrames(lib, rows[1..][..j]);
    assert ManifestFrames(lib, rows[..j + 1]) == RowFrames(lib, rows[0]) + before;
    UnusedConcat(limit, RowFrames(lib, rows[0]), before);
    if j == 0 {
      assert rows[1..][..0] == [] && RowFrames(lib, rows[0]) + [] == RowFrames(lib, rows[0]);
    }
  }

  lemma {:induction false} RowYieldsPrefix<F>(lib: Library<F>, row: ManifestRow, limit: Option<int>)
    requires limit.Some? ==> limit.value >= 0
    ensures var all := Chunks(Limited(limit, RowFrames(lib, row)), row.TargetRows());
            var y := RowYield(lib, row, limit);
            y.tables <= all && (y.failure == None ==> y.tables == all)
  {
    BeforeNullRows(lib, row.paths, row.Height(), row.Width(), limit);
    FullBatchesOfPrefix(Limited(limit, lib.GroupRows(BeforeNull(row.paths), row.Height(), row.Width())),
                        Limited(limit, RowFrames(lib, row)), row.TargetRows());
  }

  /** What the route yields before it fails is a prefix of what it would yield
      were nothing NULL in its way; without a failure it is all of it. */
  lemma {:induction false} RouteYieldsPrefix<F>(lib: Library<F>, rows: seq<ManifestRow>, limit: Option<int>)
    requires limit.Some? ==> limit.value >= 0
    ensures var y := RouteYield(lib, rows, limit);
            && y.tables <= RouteTables(lib, rows, limit)
            && (y.failure == None ==> y.tables == RouteTables(lib, rows, limit))
    decreases |rows|
  {
    if rows != [] {
      var rest := Less(limit, |Limited(limit, RowFrames(lib, rows[0]))|);
      LimitedConcat(limit, RowFrames(lib, rows[0]), []);
      RowYieldsPrefix(lib, rows[0], limit);
      RouteYieldsPrefix(lib, rows[1..], rest);
    }
  }

  ghost predicate FirstFailure<F>(lib: Library<F>, rows: seq<ManifestRow>, limit: Option<int>, i: nat) {
    && i < |rows| && RowFailsAt(lib, rows, limit, i)
    && (forall j :: 0 <= j < i ==> !RowFailsAt(lib, rows, limit, j))
  }

  // All tables of the rows before row i, then what row i yields with what they
  // leave of the limit.
  ghost function YieldUpTo<F>(lib: Library<F>, rows: seq<ManifestRow>, limit: Option<int>, i: nat): Yield<F>
    requires i < |rows|
  {
    Yield(RouteTables(lib, rows[..i], limit), None).Then(
      RowYield(lib, rows[i], Less(limit, |ManifestFrames(lib, rows[..i])|)))
  }

  ghost predicate StopsAt<F>(lib: Library<F>, rows: seq<ManifestRow>, limit: Option<int>, y: Yield<F>, i: nat) {
    FirstFailure(lib, rows, limit, i) && y == YieldUpTo(lib, rows, limit, i)
  }

  lemma {:induction false} StopsFirst<F>(lib: Library<F>, rows: seq<ManifestRow>, limit: Option<int>)
    requires rows != [] && RowFails(lib, rows[0], limit)
    ensures StopsAt(lib, rows, limit, RouteYield(lib, rows, limit), 0)
  {
    RowFailsFirst(lib, rows, limit);
    assert rows[..0] == [] && Less(limit, 0) == limit;
    assert [] + RowYield(lib, rows[0], limit).tables == RowYield(lib, rows[0], limit).tables;
  }

  lemma {:induction false} FailsLater<F>(lib: Library<F>, rows: seq<ManifestRow>, limit: Option<int>)
    requires rows != [] && !RowFails(lib, rows[0], limit)
    ensures var rest := Less(limit, |Limited(limit, RowFrames(lib, rows[0]))|);
            RouteYield(lib, rows, limit).failure.Some? <==>
            !Exhausted(rest) && RouteYield(lib, rows[1..], rest).failure.Some?
  {
  }

  lemma {:induction false} YieldUpToLater<F>(lib: Library<F>, rows: seq<ManifestRow>, limit: Option<int>, k: nat)
    requires k + 1 < |rows| && (limit.Some? ==> limit.value >= 0) && !RowFails(lib, rows[0], limit)
    requires !Exhausted(Less(limit, |Limited(limit, RowFrames(lib, rows[0]))|))
    ensures var rest := Less(limit, |Limited(limit, RowFrames(lib, rows[0]))|);
            YieldUpTo(lib, rows, limit, k + 1) ==
            RowYield(lib, rows[0], limit).Then(YieldUpTo(lib, rows[1..], rest, k))
  {
    var rest := Less(limit, |Limited(limit, RowFrames(lib, rows[0]))|);
    var before := rows[1..][..k];
    TablesUpToLater(lib, rows, limit, k);
    LeftUpToLater(lib, rows, limit, k);
    Assoc(RowYield(lib, rows[0], limit).tables, RouteTables(lib, before, rest),
          RowYield(lib, rows[k + 1], Less(rest, |ManifestFrames(lib, before)|)).tables);
  }

  lemma {:induction false} TablesUpToLater<F>(lib: Library<F>, rows: seq<ManifestRow>, limit: Option<int>, k: nat)
    requires k < |rows| && !RowFails(lib, rows[0], limit)
    requires !Exhausted(Less(limit, |Limited(limit, RowFrames(lib, rows[0]))|))
    ensures var rest := Less(limit, |Limited(limit, RowFrames(lib, rows[0]))|);
            RouteTables(lib, rows[..k + 1], limit) ==
            RowYield(lib, rows[0], limit).tables + RouteTables(lib, rows[1..][..k], rest)
  {
    assert rows[..k + 1][0] == rows[0] && rows[..k + 1][1..] == rows[1..][..k];
  }

  lemma {:induction false} LeftUpToLater<F>(lib: Library<F>, rows: seq<ManifestRow>, limit: Option<int>, k: nat)
    requires k < |rows| && (limit.Some? ==> limit.value >= 0)
    requires !Exhausted(Less(limit, |Limited(limit, RowFrames(lib, rows[0]))|))
    ensures var rest := Less(limit, |Limited(limit, RowFrames(lib, rows[0]))|);
            Less(limit, |ManifestFrames(lib, rows[..k + 1])|) == Less(rest, |ManifestFrames(lib, rows[1..][..k])|)
  {
    assert rows[..k + 1][0] == rows[0] && rows[..k + 1][1..] == rows[1..][..k];
    UnusedConcat(limit, RowFrames(lib, rows[0]), []);
  }

  lemma {:induction false} FirstFailureLater<F>(lib: Library<F>, rows: seq<ManifestRow>, limit: Option<int>, k: nat)
    requires rows != [] && (limit.Some? ==> limit.value >= 0) && !RowFails(lib, rows[0], limit)
    requires !Exhausted(Less(limit, |Limited(limit, RowFrames(lib, rows[0]))|))
    requires FirstFailure(lib, rows[1..], Less(limit, |Limited(limit, RowFrames(lib, rows[0]))|), k)
    ensures FirstFailure(lib, rows, limit, k + 1)
  {
    RowFailsLater(lib, rows, limit, k);
    RowFailsFirst(lib, rows, limit);
    forall j | 0 <= j < k + 1 ensures !RowFailsAt(lib, rows, limit, j) {
      if j > 0 {
        RowFailsLater(lib, rows, limit, j - 1);
      }
    }
  }

  /** The route stops at its first failing row. */
  lemma {:induction false} RouteStops<F>(lib: Library<F>, rows: seq<ManifestRow>, limit: Option<int>) returns (i: nat)
    requires (limit.Some? ==> limit.value >= 0) && RouteYield(lib, rows, limit).failure.Some?
    ensures StopsAt(lib, rows, limit, RouteYield(lib, rows, limit), i)
    decreases |rows|, 1
  {
    if RowFails(lib, rows[0], limit) {
      i := 0;
      StopsFirst(lib, rows, limit);
    } else {
      i := RouteStopsLater(lib, rows, limit);
    }
  }

  lemma {:induction false} RouteStopsLater<F>(lib: Library<F>, rows: seq<ManifestRow>, limit: Option<int>)
    returns (i: nat)
    requires rows != [] && (limit.Some? ==> limit.value >= 0) && !RowFails(lib, rows[0], limit)
    requires RouteYield(lib, rows, limit).failure.Some?
    ensures StopsAt(lib, rows, limit, RouteYield(lib, rows, limit), i)
    decreases |rows|, 0
  {
    FailsLater(lib, rows, limit);
    var k := RouteStops(lib, rows[1..], Less(limit, |Limited(limit, RowFrames(lib, rows[0]))|));
    i := k + 1;
    StopsLater(lib, rows, limit, k);
  }

  lemma {:induction false} StopsLater<F>(lib: Library<F>, rows: seq<ManifestRow>, limit: Option<int>, k: nat)
    requires rows != [] && (limit.Some? ==> limit.value >= 0) && !RowFails(lib, rows[0], limit)
    requires !Exhausted(Less(limit, |Limited(limit, RowFrames(lib, rows[0]))|))
    requires var rest := Less(limit, |Limited(limit, RowFrames(lib, rows[0]))|);
             StopsAt(lib, rows[1..], rest, RouteYield(lib, rows[1..], rest), k)
    ensures StopsAt(lib, rows, limit, RouteYield(lib, rows, limit), k + 1)
  {
    FirstFailureLater(lib, rows, limit, k);
    YieldUpToLater(lib, rows, limit, k);
  }

  // A failing row that is reached makes the route fail.
  lemma {:induction false} FailureStops<F>(lib: Library<F>, rows: seq<ManifestRow>, limit: Option<int>, i: nat)
    requires (limit.Some? ==> limit.value >= 0) && i < |rows| && RowFailsAt(lib, rows, limit, i)
    ensures RouteYield(lib, rows, limit).failure.Some?
    decreases |rows|
  {
    if !RowFails(lib, rows[0], limit) {
      RowFailsFirst(lib, rows, limit);
      RowFailsLater(lib, rows, limit, i - 1);
      FailureStops(lib, rows[1..], Less(limit, |Limited(limit, RowFrames(lib, rows[0]))|), i - 1);
      FailsLater(lib, rows, limit);
    }
  }

  lemma {:induction false} ManifestFailsExactlyWhen<F>(lib: Library<F>, rows: seq<ManifestRow>, limit: Option<int>)
    requires limit.Some? ==> limit.value >= 0
    ensures RouteYield(lib, rows, limit).failure.Some? <==> SomeRowFails(lib, rows, limit)
  {
    if RouteYield(lib, rows, limit).failure.Some? {
      var _ := RouteStops(lib, rows, limit);
    }
    if i :| 0 <= i < |rows| && RowFailsAt(lib, rows, limit, i) {
      FailureStops(lib, rows, limit, i);
    }
  }

  method MapRow<F(0)>(lib: Library<F>, row: ManifestRow, limit: Option<int>)
    returns (y: Yield<F>, rest: Option<int>)
    requires limit.Some? ==> limit.value >= 0
    ensures y == RowYield(lib, row, limit)
    ensures y.failure == None ==> rest == Less(limit, |Limited(limit, RowFrames(lib, row))|)
  {
    if row.height == None || row.width == None || row.maxBytes == None {
      return Yield([], Some(NullManifestValue)), limit;
    }
    var group;
    group, rest := DecodeGroup(lib, row.paths, row.Height(), row.Width(), row.maxBytes.value, limit);
    var tables := Coalesce(group.tables, row.TargetRows(), group.failure.Some?);
    y := Yield(tables, group.failure);
  }

  method MapManifest<F(0)>(lib: Library<F>, rows: seq<ManifestRow>) returns (y: Yield<F>)
    ensures y.failure.Some? <==> SomeRowFails(lib, rows, FrameLimit(rows))
    ensures y.failure.Some? ==> exists i :: StopsAt(lib, rows, FrameLimit(rows), y, i)
    ensures y.tables <= RouteTables(lib, rows, FrameLimit(rows))
    ensures y.failure == None ==> y.tables == RouteTables(lib, rows, FrameLimit(rows))
  {
    y := MapRows(lib, rows, FrameLimit(rows));
    RouteOutcome(lib, rows, FrameLimit(rows));
  }

  // Walks the rows with what is left of the limit.
  method MapRows<F(0)>(lib: Library<F>, rows: seq<ManifestRow>, frameLimit: Option<int>) returns (y: Yield<F>)
    requires frameLimit.Some? ==> frameLimit.value >= 0
    ensures y == RouteYield(lib, rows, frameLimit)
  {
    var out: seq<seq<FrameRow<F>>> := [];
    var limit := frameLimit;
    ghost var goal := RouteYield(lib, rows, frameLimit);
    RouteStarts(lib, rows, frameLimit);
    assert rows[0..] == rows;
    var i := 0;
    while i < |rows|
      invariant 0 <= i <= |rows| && RouteLeft(lib, rows[i..], limit, out, goal)
    {
      RouteStep(lib, rows, i, limit, out, goal);
      var now, rest := MapRow(lib, rows[i], limit);
      out := out + now.tables;
      if now.failure.Some? {
        return Yield(out, now.failure);
      }
      limit := rest;
      if Exhausted(limit) {
        return Yield(out, None);
      }
      i := i + 1;
    }
    assert rows[i..] == [];
    RouteDone(lib, limit, out, goal);
    y := Yield(out, None);
  }

  lemma {:induction false} RouteOutcome<F>(lib: Library<F>, rows: seq<ManifestRow>, limit: Option<int>)
    requires limit.Some? ==> limit.value >= 0
    ensures var y := RouteYield(lib, rows, limit);
            && (y.failure.Some? <==> SomeRowFails(lib, rows, limit))
            && (y.failure.Some? ==> exists i :: StopsAt(lib, rows, limit, y, i))
            && y.tables <= RouteTables(lib, rows, limit)
            && (y.failure == None ==> y.tables == RouteTables(lib, rows, limit))
  {
    ManifestFailsExactlyWhen(lib, rows, limit);
    RouteYieldsPrefix(lib, rows, limit);
    if RouteYield(lib, rows, limit).failure.Some? {
      var _ := RouteStops(lib, rows, limit);
    }
  }

  // What is yielded so far and what the remaining rows yield make up the whole.
  ghost predicate RouteLeft<F>(lib: Library<F>, rows: seq<ManifestRow>, limit: Option<int>, out: seq<seq<FrameRow<F>>>,
                               goal: Yield<F>)
  {
    (limit.Some? ==> limit.value >= 0) && Yield(out, None).Then(RouteYield(lib, rows, limit)) == goal
  }

  lemma {:induction false} RouteStarts<F>(lib: Library<F>, rows: seq<ManifestRow>, limit: Option<int>)
    requires limit.Some? ==> limit.value >= 0
    ensures RouteLeft(lib, rows, limit, [], RouteYield(lib, rows, limit))
  {
    assert [] + RouteYield(lib, rows, limit).tables == RouteYield(lib, rows, limit).tables;
  }

  lemma {:induction false} RouteDone<F>(lib: Library<F>, limit: Option<int>, out: seq<seq<FrameRow<F>>>, goal: Yield<F>)
    requires RouteLeft(lib, [], limit, out, goal)
    ensures Yield(out, None) == goal
  {
    assert out + [] == out;
  }

  lemma {:induction false} RouteStep<F>(lib: Library<F>, rows: seq<ManifestRow>, i: nat, limit: Option<int>,
                                        out: seq<seq<FrameRow<F>>>, goal: Yield<F>)
    requires i < |rows| && RouteLeft(lib, rows[i..], limit, out, goal)
    ensures var y := RowYield(lib, rows[i], limit);
            var rest := Less(limit, |Limited(limit, RowFrames(lib, rows[i]))|);
            if y.failure.Some? || Exhausted(rest) then Yield(out + y.tables, y.failure) == goal
            else RouteLeft(lib, rows[i + 1..], rest, out + y.tables, goal)
  {
    assert rows[i..][0] == rows[i] && rows[i..][1..] == rows[i + 1..];
    var rest := Less(limit, |Limited(limit, RowFrames(lib, rows[i]))|);
    LimitedConcat(limit, RowFrames(lib, rows[i]), []);
    Assoc(out, RowYield(lib, rows[i], limit).tables, RouteYield(lib, rows[i + 1..], rest).tables);
  }

  // ----- The limited task ---------------------------------------------------

  /** Decodes the paths in order until the limit is reached. */
  method LimitedTask<F(0)>(lib: Library<F>, paths: seq<string>, height: int, width: int, maxFrames: int, maxBytes: int)
    returns (batches: seq<seq<FrameRow<F>>>)
    ensures Flatten(batches) == Limited(Some(maxFrames), lib.PathRows(paths, height, width))
  {
    batches := [];
    var rest := Some(Max(0, maxFrames));
    ghost var done: seq<FrameRow<F>> := [];
    ghost var goal := Limited(rest, lib.PathRows(paths, height, width));
    assert paths[0..] == paths;
    var i := 0;
    while i < |paths|
      invariant 0 <= i <= |paths| && rest.Some? && rest.value >= 0
      invariant done + Limited(rest, lib.PathRows(paths[i..], height, width)) == goal
      invariant Flatten(batches) == done
    {
      if Exhausted(rest) {
        ExhaustedLimit(rest, lib.PathRows(paths[i..], height, width));
        break;
      }
      PathStep(lib, paths, i, height, width, rest, done);
      var tables;
      tables, rest := DecodeFile(lib, paths[i], height, width, maxBytes, rest);
      FlattenConcat(batches, tables);
      batches, done := batches + tables, done + Flatten(tables);
      i := i + 1;
    }
    assert done + [] == done;
  }

  lemma {:induction false} PathStep<F>(lib: Library<F>, paths: seq<string>, i: nat, height: int, width: int,
                                       limit: Option<int>, done: seq<FrameRow<F>>)
    requires i < |paths| && (limit.Some? ==> limit.value >= 0)
    ensures var now := Limited(limit, lib.FileRows(paths[i], height, width));
            && (done + now) + Limited(Less(limit, |now|), lib.PathRows(paths[i + 1..], height, width))
               == done + Limited(limit, lib.PathRows(paths[i..], height, width))
            && (limit.Some? ==> |now| <= limit.value)
  {
    assert paths[i..][0] == paths[i] && paths[i..][1..] == paths[i + 1..];
    var file, after := lib.FileRows(paths[i], height, width), lib.PathRows(paths[i + 1..], height, width);
    LimitedConcat(limit, file, after);
    Assoc(done, Limited(limit, file), Limited(Less(limit, |Limited(limit, file)|), after));
  }

  // ----- One source, two routes ---------------------------------------------

  datatype Source = Source(
    paths: seq<string>,
    height: int,
    width: int,
    maxBytes: int,
    frameLimit: Option<int>,
    readTaskCount: Option<int>)

  method PathGroups(source: Source) returns (r: Result<seq<seq<string>>, Error>)
    ensures r.Failure? <==>
              && source.paths != [] && source.frameLimit == None
              && source.readTaskCount.Some? && source.readTaskCount.value <= 0
    ensures r.Success? ==> Flatten(r.value) == source.paths && forall i :: 0 <= i < |r.value| ==> r.value[i] != []
    ensures r.Success? && source.frameLimit.Some? && source.paths != [] ==> r.value == [source.paths]
    ensures r.Success? && source.frameLimit == None && source.readTaskCount == None ==> |r.value| == |source.paths|
    ensures r.Success? && source.frameLimit == None && source.readTaskCount.Some? ==>
              |r.value| == Min(|source.paths|, Max(0, source.readTaskCount.value)) && Balanced(r.value)
  {
    if source.paths == [] {
      return Success([]);
    }
    if source.frameLimit.Some? {
      FlattenOne(source.paths);
      return Success([source.paths]);
    }
    if source.readTaskCount == None {
      var groups := seq(|source.paths|, i requires 0 <= i < |source.paths| => [source.paths[i]]);
      FlattenSingletons(source.paths, groups);
      return Success(groups);
    }
    r := SplitPathGroups(source.paths, source.readTaskCount.value);
  }

  lemma {:induction false} FlattenSingletons<T>(s: seq<T>, groups: seq<seq<T>>)
    requires |groups| == |s| && forall i :: 0 <= i < |s| ==> groups[i] == [s[i]]
    ensures Flatten(groups) == s
  {
    if s != [] {
      FlattenSingletons(s[1..], groups[1..]);
      assert s == [s[0]] + s[1..];
    }
  }

  function Present(paths: seq<string>): (r: seq<Option<string>>)
    ensures |r| == |paths| && forall i :: 0 <= i < |r| ==> r[i] == Some(paths[i])
  {
    seq(|paths|, i requires 0 <= i < |paths| => Some(paths[i]))
  }

  function ManifestRowFor(source: Source, paths: seq<string>): (row: ManifestRow)
    ensures !row.HasNull()
  {
    ManifestRow(Present(paths), Some(source.height), Some(source.width), Some(source.maxBytes),
                if source.frameLimit == None then None else Some(Max(0, source.frameLimit.value)))
  }

  function Manifest(source: Source, groups: seq<seq<string>>): (rows: seq<ManifestRow>)
    ensures |rows| == |groups| && forall i :: 0 <= i < |rows| ==> !rows[i].HasNull()
  {
    if groups == [] then [] else [ManifestRowFor(source, groups[0])] + Manifest(source, groups[1..])
  }

  lemma {:induction false} PresentRows<F>(lib: Library<F>, paths: seq<string>, height: int, width: int)
    ensures lib.GroupRows(Present(paths), height, width) == lib.PathRows(paths, height, width)
  {
    if paths != [] {
      assert Present(paths)[1..] == Present(paths[1..]);
      PresentRows(lib, paths[1..], height, width);
    }
  }

  lemma {:induction false} PathRowsConcat<F>(lib: Library<F>, a: seq<string>, b: seq<string>, height: int, width: int)
    ensures lib.PathRows(a + b, height, width) == lib.PathRows(a, height, width) + lib.PathRows(b, height, width)
  {
    if a == [] {
      assert a + b == b;
    } else {
      assert (a + b)[1..] == a[1..] + b;
      PathRowsConcat(lib, a[1..], b, height, width);
    }
  }

  // However the paths are grouped, the manifest lists their frames in order.
  lemma {:induction false} GroupingIsInvisible<F>(lib: Library<F>, source: Source, groups: seq<seq<string>>)
    ensures ManifestFrames(lib, Manifest(source, groups)) == lib.PathRows(Flatten(groups), source.height, source.width)
  {
    if groups != [] {
      var rows := Manifest(source, groups);
      assert rows[1..] == Manifest(source, groups[1..]);
      GroupingIsInvisible(lib, source, groups[1..]);
      PresentRows(lib, groups[0], source.height, source.width);
      PathRowsConcat(lib, groups[0], Flatten(groups[1..]), source.height, source.width);
    }
  }

  ghost predicate Within<R>(tables: seq<seq<R>>, n: nat) {
    forall i :: 0 <= i < |tables| ==> 0 < |tables[i]| <= n
  }

  lemma {:induction false} RouteTablesWithin<F>(lib: Library<F>, rows: seq<ManifestRow>, limit: Option<int>, n: nat)
    requires forall i :: 0 <= i < |rows| ==> rows[i].TargetRows() == n
    ensures Within(RouteTables(lib, rows, limit), n)
    decreases |rows|
  {
    if rows != [] {
      var group := Limited(limit, lib.GroupRows(rows[0].paths, rows[0].Height(), rows[0].Width()));
      ChunksCut(group, n);
      RouteTablesWithin(lib, rows[1..], Less(limit, |group|), n);
    }
  }

  lemma {:induction false} ManifestTargets(source: Source, groups: seq<seq<string>>)
    ensures forall i :: 0 <= i < |groups| ==>
              Manifest(source, groups)[i].TargetRows() == OutputBatchSize(source.height, source.width, source.maxBytes)
  {
    if groups != [] {
      ManifestTargets(source, groups[1..]);
      assert Manifest(source, groups)[1..] == Manifest(source, groups[1..]);
    }
  }

  /** The manifest route of a source: all its frames in path order, or the first
      `frameLimit` of them, whatever the number of read tasks. */
  method ReadThroughManifest<F(0)>(lib: Library<F>, source: Source) returns (r: Result<seq<seq<FrameRow<F>>>, Error>)
    ensures r.Failure? <==>
              && source.paths != [] && source.frameLimit == None
              && source.readTaskCount.Some? && source.readTaskCount.value <= 0
    ensures r.Success? ==>
              Flatten(r.value) == Limited(source.frameLimit, lib.PathRows(source.paths, source.height, source.width))
    ensures r.Success? ==> Within(r.value, OutputBatchSize(source.height, source.width, source.maxBytes))
  {
    var groups := PathGroups(source);
    if groups.Failure? {
      return Failure(groups.error);
    }
    var rows := Manifest(source, groups.value);
    var y := MapManifest(lib, rows);
    assert y.failure == None;
    r := Success(y.tables);
    RouteRows(lib, rows, FrameLimit(rows));
    ManifestTargets(source, groups.value);
    RouteTablesWithin(lib, rows, FrameLimit(rows), OutputBatchSize(source.height, source.width, source.maxBytes));
    GroupingIsInvisible(lib, source, groups.value);
    ManifestLimit(source, groups.value);
    if rows == [] {
      assert lib.PathRows(source.paths, source.height, source.width) == [];
    }
  }

  lemma {:induction false} ManifestLimit(source: Source, groups: seq<seq<string>>)
    ensures groups != [] && source.frameLimit.Some? ==>
              FrameLimit(Manifest(source, groups)) == Some(Max(0, source.frameLimit.value))
    ensures source.frameLimit == None ==> FrameLimit(Manifest(source, groups)) == None
  {
    if groups != [] {
      assert Manifest(source, groups)[1..] == Manifest(source, groups[1..]);
      ManifestLimit(source, groups[1..]);
    }
  }

  /** With a frame limit both routes deliver the same rows. */
  method ReadBothWays<F(0)>(lib: Library<F>, source: Source)
    returns (tables: seq<seq<FrameRow<F>>>, batches: seq<seq<FrameRow<F>>>)
    requires source.frameLimit.Some?
    ensures Flatten(tables) == Flatten(batches)
    ensures |Flatten(batches)| ==
            Min(Max(0, source.frameLimit.value), |lib.PathRows(source.paths, source.height, source.width)|)
    ensures Flatten(batches) <= lib.PathRows(source.paths, source.height, source.width)
  {
    var r := ReadThroughManifest(lib, source);
    tables := r.value;
    var maxFrames := Max(0, source.frameLimit.value);
    batches := LimitedTask(lib, source.paths, source.height, source.width, maxFrames, source.maxBytes);
  }
}
