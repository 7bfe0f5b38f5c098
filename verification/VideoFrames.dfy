/**
  Streaming of decoded video frames: a decoder whose batches share memory with
  its working buffer, coalescing across files, and grouping of files into read
  tasks.
*/
module VideoFrames {
  import opened Wrappers
  import opened Sequences

  function Limited<R>(limit: Option<int>, rows: seq<R>): seq<R> {
    if limit == None then rows else rows[..Min(Max(0, limit.value), |rows|)]
  }

  // ----- Batch size ---------------------------------------------------------

  function FrameBytes(height: int, width: int): (n: int)
    ensures n >= 1 && n >= 3 * height * width && (n == 1 || n == 3 * height * width)
  {
    Max(1, height * width * 3)
  }

  function OutputBatchSize(height: int, width: int, maxPartitionBytes: int): (n: nat)
    ensures n > 0
  {
    Max(1, maxPartitionBytes / FrameBytes(height, width) + 1)
  }

  /** The byte target is soft: a full batch is the shortest that exceeds it. */
  lemma {:induction false} BatchJustCrossesTarget(height: int, width: int, maxPartitionBytes: nat)
    ensures var n, bytes := OutputBatchSize(height, width, maxPartitionBytes), FrameBytes(height, width);
            (n - 1) * bytes <= maxPartitionBytes < n * bytes
    ensures height > 0 && width > 0 ==> FrameBytes(height, width) == 3 * height * width
  {
    var bytes := FrameBytes(height, width);
    var q := maxPartitionBytes / bytes;
    assert maxPartitionBytes == q * bytes + maxPartitionBytes % bytes;
    assert (q + 1) * bytes == q * bytes + bytes;
    if height > 0 && width > 0 {
      assert height * width >= 1;
    }
  }

  // ----- The decoder --------------------------------------------------------

  datatype FrameRow<F> = FrameRow(video: string, index: nat, frame: F)

  // The table one file decodes to.
  function VideoRows<F>(video: string, frames: seq<F>, resize: F -> F): (rows: seq<FrameRow<F>>)
    ensures |rows| == |frames|
    ensures forall i :: 0 <= i < |rows| ==> rows[i] == FrameRow(video, i, resize(frames[i]))
  {
    seq(|frames|, i requires 0 <= i < |frames| => FrameRow(video, i, resize(frames[i])))
  }

  // A record batch: the first frames of `buffer`, one per index, not copied.
  datatype Batch<!F> = Batch(video: string, indices: seq<nat>, buffer: array<F>) {
    // What a consumer of the batch sees.
    function Rows(): (rows: seq<FrameRow<F>>)
      requires |indices| <= buffer.Length
      reads buffer
      ensures |rows| == |indices|
      ensures forall k :: 0 <= k < |rows| ==> rows[k] == FrameRow(video, indices[k], buffer[k])
    {
      seq(|indices|, k requires 0 <= k < |indices| reads buffer => FrameRow(video, indices[k], buffer[k]))
    }
  }

  // A batch handed out, with the rows it showed at that moment.
  datatype Published<!F> = Published(batch: Batch<F>, rows: seq<FrameRow<F>>)

  class Decoder<F(0)> {
    const video: string
    const frames: seq<F>
    const resize: F -> F
    const batchSize: nat
    const maxFrames: Option<int>
    var resized: array<F>
    var position: nat
    ghost var published: seq<Published<F>>

    // The rows to deliver.
    ghost function Wanted(): seq<FrameRow<F>> {
      Limited(maxFrames, VideoRows(video, frames, resize))
    }

    ghost function Buffers(): set<array<F>>
      reads this
    {
      set i | 0 <= i < |published| :: published[i].batch.buffer
    }

    // Every batch handed out still shows the rows it was published with.
    ghost predicate Unchanged()
      reads this, Buffers()
    {
      forall i :: 0 <= i < |published| ==>
        var b := published[i].batch;
        |b.indices| <= b.buffer.Length && b.Rows() == published[i].rows
    }

    ghost predicate Valid()
      reads this, Buffers(), resized
    {
      && batchSize > 0 && resized.Length == batchSize && position <= |Wanted()|
      && resized !in Buffers()
      && Unchanged()
    }

    constructor (video: string, frames: seq<F>, resize: F -> F, batchSize: nat, maxFrames: Option<int>)
      requires batchSize > 0
      ensures Valid() && fresh(resized) && published == [] && position == 0 && this.batchSize == batchSize
      ensures Wanted() == Limited(maxFrames, VideoRows(video, frames, resize))
    {
      this.video, this.frames, this.resize := video, frames, resize;
      this.batchSize, this.maxFrames := batchSize, maxFrames;
      resized := new F[batchSize];
      position, published := 0, [];
    }

    // Reads frames until a batch is full or no more are wanted.
    method ReadBatch() returns (raw: seq<F>, indices: seq<nat>)
      requires batchSize > 0 && position <= |Wanted()|
      modifies this`position
      ensures position == Min(old(position) + batchSize, |Wanted()|)
      ensures |raw| == |indices| == position - old(position)
      ensures forall k :: 0 <= k < |raw| ==> FrameRow(video, indices[k], resize(raw[k])) == Wanted()[old(position) + k]
    {
      raw, indices := [], [];
      while position < |frames| && !(maxFrames.Some? && position >= maxFrames.value) && |raw| < batchSize
        invariant old(position) <= position <= |Wanted()|
        invariant |raw| == |indices| == position - old(position) <= batchSize
        invariant forall k :: 0 <= k < |raw| ==>
                    FrameRow(video, indices[k], resize(raw[k])) == Wanted()[old(position) + k]
        decreases |frames| - position
      {
        raw := raw + [frames[position]];
        indices := indices + [position];
        position := position + 1;
      }
    }

    // Resizes into the working buffer, publishes it, and takes a new one.
    method EmitBatch(raw: seq<F>, indices: seq<nat>, ghost start: nat) returns (b: Batch<F>)
      requires Valid() && 0 < |raw| == |indices| <= batchSize && start + |raw| == position
      requires forall k :: 0 <= k < |raw| ==> FrameRow(video, indices[k], resize(raw[k])) == Wanted()[start + k]
      modifies this`resized, this`published, resized
      ensures Valid() && fresh(resized)
      ensures b == Batch(video, indices, old(resized))
      ensures published == old(published) + [Published(b, Wanted()[start..position])]
      ensures forall a :: a in old(Buffers()) ==> a[..] == old(a[..])
    {
      var k := 0;
      while k < |raw|
        invariant 0 <= k <= |raw|
        invariant forall j :: 0 <= j < k ==> FrameRow(video, indices[j], resized[j]) == Wanted()[start + j]
        invariant forall a :: a in old(Buffers()) ==> a[..] == old(a[..])
        modifies resized
      {
        resized[k] := resize(raw[k]);
        k := k + 1;
      }
      b := Batch(video, indices, resized);
      ghost var rows := Wanted()[start..position];
      assert b.Rows() == rows;
      assert Unchanged();
      resized := new F[batchSize];
      published := published + [Published(b, rows)];
    }

    /** One resumption of the generator.  It returns the next wanted rows, at
        most a batch of them, and writes to no buffer published earlier. */
    method Next() returns (b: Option<Batch<F>>)
      requires Valid()
      modifies this, resized
      ensures Valid() && position == Min(old(position) + batchSize, |Wanted()|)
      ensures b == None <==> old(position) == |Wanted()|
      ensures b == None ==> published == old(published) && resized == old(resized)
      ensures b.Some? ==>
                && fresh(resized) && b.value.buffer == old(resized)
                && published == old(published) + [Published(b.value, Wanted()[old(position)..position])]
      ensures forall a :: a in old(Buffers()) ==> a[..] == old(a[..])
    {
      ghost var start := position;
      var raw, indices := ReadBatch();
      if |raw| == 0 {
        return None;
      }
      var batch := EmitBatch(raw, indices, start);
      return Some(batch);
    }
  }

  // ----- A whole file -------------------------------------------------------

  ghost function PublishedRows<F>(published: seq<Published<F>>): seq<seq<FrameRow<F>>> {
    seq(|published|, i requires 0 <= i < |published| => published[i].rows)
  }

  // Drains the generator; all batches are kept, none is copied.
  method DrainDecoder<F(0)>(d: Decoder<F>) returns (batches: seq<Batch<F>>)
    requires d.Valid() && d.published == [] && d.position == 0
    modifies d, d.resized
    ensures d.Valid() && |batches| == |d.published|
    ensures forall i :: 0 <= i < |batches| ==> batches[i] == d.published[i].batch
    ensures PublishedRows(d.published) == Chunks(d.Wanted(), d.batchSize)
  {
    batches := [];
    ghost var wanted, n := d.Wanted(), d.batchSize;
    assert wanted[0..] == wanted;
    while true
      invariant d.Valid() && (d.resized == old(d.resized) || fresh(d.resized))
      invariant |batches| == |d.published|
      invariant forall i :: 0 <= i < |batches| ==> batches[i] == d.published[i].batch
      invariant PublishedRows(d.published) + Chunks(wanted[d.position..], n) == Chunks(wanted, n)
      decreases |wanted| - d.position
    {
      ghost var start := d.position;
      ghost var before := PublishedRows(d.published);
      var b := d.Next();
      if b == None {
        assert wanted[start..] == [];
        assert before + [] == before;
        return;
      }
      NextChunk(wanted, n, start, d.position);
      assert PublishedRows(d.published) == before + [wanted[start..d.position]];
      Assoc(before, [wanted[start..d.position]], Chunks(wanted[d.position..], n));
      batches := batches + [b.value];
    }
  }

  /** Decoding a file gives its wanted rows in consecutive batches.  The rows are
      read off the batches only after the decoder has run to its end. */
  method DecodeVideo<F(0)>(video: string, frames: seq<F>, resize: F -> F, batchSize: nat, maxFrames: Option<int>)
    returns (tables: seq<seq<FrameRow<F>>>)
    requires batchSize > 0
    ensures tables == Chunks(Limited(maxFrames, VideoRows(video, frames, resize)), batchSize)
  {
    var d := new Decoder(video, frames, resize, batchSize, maxFrames);
    var batches := DrainDecoder(d);
    tables := [];
    var i := 0;
    while i < |batches|
      invariant 0 <= i <= |batches| && d.Valid() && |batches| == |d.published|
      invariant forall j :: 0 <= j < |batches| ==> batches[j] == d.published[j].batch
      invariant tables == PublishedRows(d.published)[..i]
    {
      tables := tables + [batches[i].Rows()];
      i := i + 1;
    }
  }

  // ----- Coalescing ---------------------------------------------------------

  /** Tables of the target size, cut without regard to file boundaries; only
      the last of a stream may be shorter. A stream that raises after its
      batches leaves the tables already full and loses the rest. */
  method Coalesce<R>(batches: seq<seq<R>>, targetRows: int, raises: bool) returns (out: seq<seq<R>>)
    ensures var rows, target := Flatten(batches), Max(1, targetRows);
            out == if raises then FullBatches(rows, target) else Chunks(rows, target)
  {
    var target := Max(1, targetRows);
    var pending: seq<seq<R>>, pendingRows := [], 0;
    out := [];
    var i := 0;
    while i < |batches|
      invariant 0 <= i <= |batches|
      invariant pendingRows == |Flatten(pending)| < target
      invariant AllFull(out, target)
      invariant Flatten(out) + Flatten(pending) == Flatten(batches[..i])
    {
      ghost var before := Flatten(pending);
      var emitted;
      emitted, pending, pendingRows := CoalesceOne(batches[i], target, pending, pendingRows);
      FlattenConcat(out, emitted);
      Reassociate(Flatten(out), Flatten(emitted), Flatten(pending), before, batches[i]);
      assert batches[..i + 1] == batches[..i] + [batches[i]];
      FlattenSnoc(batches[..i], batches[i]);
      i := i + 1;
      out := out + emitted;
    }
    assert batches[..|batches|] == batches;
    if raises {
      FullBatchesUnique(out, Flatten(pending), target);
      return;
    }
    assert pendingRows == 0 ==> Flatten(out) + Flatten(pending) == Flatten(out);
    if pendingRows > 0 {
      FlattenSnoc(out, Flatten(pending));
      out := out + [Flatten(pending)];
    }
    ChunksUnique(out, target);
  }

  method CoalesceOne<R>(table: seq<R>, target: nat, pending: seq<seq<R>>, pendingRows: nat)
    returns (out: seq<seq<R>>, pending': seq<seq<R>>, pendingRows': nat)
    requires pendingRows == |Flatten(pending)| < target
    ensures pendingRows' == |Flatten(pending')| < target && AllFull(out, target)
    ensures Flatten(out) + Flatten(pending') == Flatten(pending) + table
  {
    out, pending', pendingRows' := [], pending, pendingRows;
    var offset := 0;
    while offset < |table|
      invariant 0 <= offset <= |table|
      invariant pendingRows' == |Flatten(pending')| < target && AllFull(out, target)
      invariant Flatten(out) + Flatten(pending') == Flatten(pending) + table[..offset]
    {
      var take := Min(target - pendingRows', |table| - offset);
      var piece := table[offset..offset + take];
      FlattenSnoc(pending', piece);
      Assoc(Flatten(out), Flatten(pending'), piece);
      Assoc(Flatten(pending), table[..offset], piece);
      assert table[..offset + take] == table[..offset] + piece;
      pending' := pending' + [piece];
      pendingRows' := pendingRows' + take;
      offset := offset + take;
      if pendingRows' == target {
        FlattenSnoc(out, Flatten(pending'));
        out := out + [Flatten(pending')];
        pending', pendingRows' := [], 0;
      }
    }
    assert table[..|table|] == table;
  }

  // ----- Read tasks ---------------------------------------------------------

  datatype Error = NonPositiveTaskCount | NullManifestValue | NullPath

  /** Cuts the paths into the requested number of tasks, or one per path if
      fewer, none empty, sizes differing by at most one, in order. */
  method SplitPathGroups<P>(paths: seq<P>, taskCount: int) returns (r: Result<seq<seq<P>>, Error>)
    ensures r.Failure? <==> paths != [] && taskCount <= 0
    ensures r.Success? ==>
              Flatten(r.value) == paths && |r.value| == Min(|paths|, Max(0, taskCount)) && Balanced(r.value)
  {
    if paths == [] {
      return Success([]);
    }
    var count := Min(|paths|, taskCount);
    if count <= 0 {
      return Failure(NonPositiveTaskCount);
    }
    var base, larger := |paths| / count, |paths| % count;
    BaseAtLeastOne(|paths|, count);
    OffsetsCover(|paths|, count);
    var groups := CutGroups(paths, count, base, larger);
    SizedIsBalanced(groups, base, larger);
    return Success(groups);
  }

  method CutGroups<P>(paths: seq<P>, count: nat, base: nat, larger: nat) returns (groups: seq<seq<P>>)
    requires Offset(base, larger, count) == |paths|
    ensures Flatten(groups) == paths && |groups| == count && Sized(groups, base, larger)
  {
    groups := [];
    var offset, i := 0, 0;
    while i < count
      invariant 0 <= i <= count && |groups| == i && Sized(groups, base, larger)
      invariant offset == Offset(base, larger, i) <= |paths|
      invariant Flatten(groups) == paths[..offset]
    {
      var size := GroupSize(base, larger, i);
      OffsetsRise(base, larger, i + 1, count);
      var group := paths[offset..offset + size];
      FlattenSnoc(groups, group);
      assert paths[..offset + size] == paths[..offset] + group;
      groups := groups + [group];
      offset := offset + size;
      i := i + 1;
    }
    assert paths[..offset] == paths;
  }

  // The first groups take one path more.
  ghost predicate Sized<P>(groups: seq<seq<P>>, base: nat, larger: nat) {
    forall k :: 0 <= k < |groups| ==> |groups[k]| == GroupSize(base, larger, k)
  }

  ghost predicate Balanced<P>(groups: seq<seq<P>>) {
    && (forall i :: 0 <= i < |groups| ==> groups[i] != [])
    && (forall i, j :: 0 <= i < j < |groups| ==> |groups[j]| <= |groups[i]| <= |groups[j]| + 1)
  }

  lemma {:induction false} SizedIsBalanced<P>(groups: seq<seq<P>>, base: nat, larger: nat)
    requires Sized(groups, base, larger) && base >= 1
    ensures Balanced(groups)
  {
  }

  lemma {:induction false} BaseAtLeastOne(n: nat, count: nat)
    requires 0 < count <= n
    ensures n / count >= 1
  {
  }

  function GroupSize(base: nat, larger: nat, k: nat): nat {
    base + if k < larger then 1 else 0
  }

  // The number of paths in the first i groups.
  function Offset(base: nat, larger: nat, i: nat): nat {
    if i == 0 then 0 else Offset(base, larger, i - 1) + GroupSize(base, larger, i - 1)
  }

  lemma {:induction false} OffsetIs(base: nat, larger: nat, i: nat)
    ensures Offset(base, larger, i) == base * i + Min(i, larger)
  {
    if i > 0 {
      OffsetIs(base, larger, i - 1);
      assert base * i == base * (i - 1) + base;
    }
  }

  lemma {:induction false} OffsetsRise(base: nat, larger: nat, i: nat, j: nat)
    requires i <= j
    ensures Offset(base, larger, i) <= Offset(base, larger, j)
    decreases j
  {
    if i < j {
      OffsetsRise(base, larger, i, j - 1);
    }
  }

  lemma {:induction false} OffsetsCover(n: nat, count: nat)
    requires count > 0
    ensures Offset(n / count, n % count, count) == n
  {
    OffsetIs(n / count, n % count, count);
  }
}
