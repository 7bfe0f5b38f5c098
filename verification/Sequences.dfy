/** Concatenating tables, cutting row streams into consecutive chunks, and removing
    elements. */
module Sequences {

  function Min(a: int, b: int): int {
    if a < b then a else b
  }

  function Max(a: int, b: int): int {
    if a < b then b else a
  }

  lemma {:induction false} Assoc<T>(a: seq<T>, b: seq<T>, c: seq<T>)
    ensures (a + b) + c == a + (b + c)
  {
  }

  lemma {:induction false} Reassociate<T>(h: seq<T>, b: seq<T>, p': seq<T>, p: seq<T>, a: seq<T>)
    requires b + p' == p + a
    ensures (h + b) + p' == (h + p) + a
  {
    Assoc(h, b, p');
    Assoc(h, p, a);
  }

  // A stream split at n whose tail is itself split.
  lemma {:induction false} Rejoin<T>(s: seq<T>, n: nat, x: seq<T>, y: seq<T>)
    requires n <= |s| && x + y == s[n..]
    ensures (s[..n] + x) + y == s
  {
    Assoc(s[..n], x, y);
    assert s == s[..n] + s[n..];
  }

  function Flatten<T>(ss: seq<seq<T>>): seq<T> {
    if ss == [] then [] else ss[0] + Flatten(ss[1..])
  }

  lemma {:induction false} FlattenCons<T>(t: seq<T>, ss: seq<seq<T>>)
    ensures Flatten([t] + ss) == t + Flatten(ss)
  {
    assert ([t] + ss)[1..] == ss;
  }

  lemma {:induction false} FlattenConcat<T>(a: seq<seq<T>>, b: seq<seq<T>>)
    ensures Flatten(a + b) == Flatten(a) + Flatten(b)
  {
    if a == [] {
      assert a + b == b;
    } else {
      assert (a + b)[1..] == a[1..] + b;
      FlattenConcat(a[1..], b);
    }
  }

  lemma {:induction false} FlattenSnoc<T>(a: seq<seq<T>>, t: seq<T>)
    ensures Flatten(a + [t]) == Flatten(a) + t
  {
    FlattenConcat(a, [t]);
    assert [t][1..] == [];
  }

  lemma {:induction false} FlattenOne<T>(t: seq<T>)
    ensures Flatten([t]) == t
  {
    assert [t][1..] == [];
  }

  // Concatenation as Arrow is asked for it: a single piece is passed on as is.
  function Concat<T>(pieces: seq<seq<T>>): (r: seq<T>)
    ensures r == Flatten(pieces)
  {
    if |pieces| == 1 then (assert pieces == [pieces[0]]; FlattenOne(pieces[0]); pieces[0]) else Flatten(pieces)
  }

  lemma {:induction false} FlattenOfEmpties<T>(ss: seq<seq<T>>)
    ensures Flatten(ss) == [] <==> forall i :: 0 <= i < |ss| ==> ss[i] == []
  {
    if ss != [] {
      FlattenOfEmpties(ss[1..]);
      assert forall i :: 1 <= i < |ss| ==> ss[i] == ss[1..][i - 1];
    }
  }

  // Consecutive chunks of n rows, only the last of which may be shorter.
  function Chunks<T>(s: seq<T>, n: nat): seq<seq<T>>
    requires n > 0
  {
    if s == [] then [] else if |s| <= n then [s] else [s[..n]] + Chunks(s[n..], n)
  }

  ghost predicate ChunksOf<T>(ss: seq<seq<T>>, n: nat) {
    && (forall i :: 0 <= i < |ss| ==> 0 < |ss[i]| <= n)
    && (forall i :: 0 <= i < |ss| - 1 ==> |ss[i]| == n)
  }

  ghost predicate AllFull<T>(ss: seq<seq<T>>, n: nat) {
    forall i :: 0 <= i < |ss| ==> |ss[i]| == n
  }

  lemma {:induction false} ChunksCut<T>(s: seq<T>, n: nat)
    requires n > 0
    ensures Flatten(Chunks(s, n)) == s && ChunksOf(Chunks(s, n), n)
    decreases |s|
  {
    if s == [] {
    } else if |s| <= n {
      FlattenOne(s);
    } else {
      ChunksCut(s[n..], n);
      FlattenCons(s[..n], Chunks(s[n..], n));
      assert s == s[..n] + s[n..];
    }
  }

  /** There is only one way to cut a stream into full chunks and a tail. */
  lemma {:induction false} ChunksUnique<T>(ss: seq<seq<T>>, n: nat)
    requires n > 0 && ChunksOf(ss, n)
    ensures ss == Chunks(Flatten(ss), n)
  {
    if |ss| == 1 {
      assert ss[1..] == [] && Flatten(ss) == ss[0] && ss == [ss[0]];
    } else if |ss| > 1 {
      var rest := ss[1..];
      assert ChunksOf(rest, n) by {
        assert forall i :: 0 <= i < |rest| ==> rest[i] == ss[i + 1];
      }
      ChunksUnique(rest, n);
      var all := Flatten(ss);
      assert all == ss[0] + Flatten(rest) && |ss[0]| == n;
      assert rest[0] == ss[1] && Flatten(rest) == rest[0] + Flatten(rest[1..]);
      assert all[..n] == ss[0] && all[n..] == Flatten(rest);
      assert ss == [ss[0]] + rest;
    }
  }

  lemma {:induction false} NextChunk<T>(t: seq<T>, n: nat, start: nat, end: nat)
    requires n > 0 && start < |t| && end == Min(start + n, |t|)
    ensures Chunks(t[start..], n) == [t[start..end]] + Chunks(t[end..], n)
  {
    var s := t[start..];
    if |s| <= n {
      assert s == t[start..end] && t[end..] == [];
    } else {
      assert s[..n] == t[start..end] && s[n..] == t[end..];
    }
  }

  // The chunks of full size that can be cut off the front, and what is left.
  ghost function FullBatches<T>(s: seq<T>, n: nat): seq<seq<T>>
    requires n > 0
  {
    if |s| < n then [] else [s[..n]] + FullBatches(s[n..], n)
  }

  ghost function Leftover<T>(s: seq<T>, n: nat): seq<T>
    requires n > 0
  {
    if |s| < n then s else Leftover(s[n..], n)
  }

  lemma {:induction false} FullBatchesUnique<T>(ss: seq<seq<T>>, rest: seq<T>, n: nat)
    requires n > 0 && AllFull(ss, n) && |rest| < n
    ensures ss == FullBatches(Flatten(ss) + rest, n)
  {
    if ss == [] {
      assert Flatten(ss) + rest == rest;
    } else {
      FullBatchesUnique(ss[1..], rest, n);
      Assoc(ss[0], Flatten(ss[1..]), rest);
      var after := Flatten(ss[1..]) + rest;
      assert (ss[0] + after)[..n] == ss[0] && (ss[0] + after)[n..] == after;
      assert ss == [ss[0]] + ss[1..];
    }
  }

  // What can be cut off a prefix already is cut off the whole.
  lemma {:induction false} FullBatchesOfPrefix<T>(p: seq<T>, s: seq<T>, n: nat)
    requires n > 0 && p <= s
    ensures FullBatches(p, n) <= Chunks(s, n)
  {
    if |p| >= n {
      assert p[..n] == s[..n] && p[n..] <= s[n..];
      FullBatchesOfPrefix(p[n..], s[n..], n);
      if |s| <= n {
        assert s[..n] == s && p[n..] == [];
      }
    }
  }

  // Chunks already cut off and the chunks of the rest make up the whole.
  ghost predicate ChunksLeft<T>(done: seq<seq<T>>, rest: seq<T>, n: nat, goal: seq<seq<T>>) {
    n > 0 && done + Chunks(rest, n) == goal
  }

  lemma {:induction false} CutChunk<T>(t: seq<T>, n: nat, start: nat, end: nat, done: seq<seq<T>>, goal: seq<seq<T>>)
    requires start < |t| && end == Min(start + n, |t|) && ChunksLeft(done, t[start..], n, goal)
    ensures ChunksLeft(done + [t[start..end]], t[end..], n, goal)
  {
    NextChunk(t, n, start, end);
    Assoc(done, [t[start..end]], Chunks(t[end..], n));
  }

  lemma {:induction false} AllChunksCut<T>(done: seq<seq<T>>, rest: seq<T>, n: nat, goal: seq<seq<T>>)
    requires ChunksLeft(done, rest, n, goal) && rest == []
    ensures done == goal
  {
    assert done + [] == done;
  }

  // One more element of `s` after what came before.
  lemma {:induction false} TakeSnoc<T>(before: seq<T>, s: seq<T>, i: nat)
    requires i < |s|
    ensures (before + s[..i]) + [s[i]] == before + s[..i + 1]
  {
    Assoc(before, s[..i], [s[i]]);
    assert s[..i + 1] == s[..i] + [s[i]];
  }

  ghost predicate Distinct<T>(s: seq<T>) {
    forall i, j :: 0 <= i < j < |s| ==> s[i] != s[j]
  }

  function Without<T(==)>(s: seq<T>, x: T): seq<T> {
    if s == [] then [] else (if s[0] == x then [] else [s[0]]) + Without(s[1..], x)
  }

  function Cut<T>(s: seq<T>, i: nat): (t: seq<T>)
    requires i < |s|
    ensures |t| == |s| - 1
    ensures forall j :: 0 <= j < |t| ==> t[j] == if j < i then s[j] else s[j + 1]
  {
    s[..i] + s[i + 1..]
  }

  lemma {:induction false} WithoutAbsent<T>(s: seq<T>, x: T)
    requires x !in s
    ensures Without(s, x) == s
  {
    if s != [] {
      WithoutAbsent(s[1..], x);
      assert s == [s[0]] + s[1..];
    }
  }

  lemma {:induction false} WithoutAt<T>(s: seq<T>, i: nat)
    requires i < |s| && Distinct(s)
    ensures Without(s, s[i]) == Cut(s, i)
  {
    if i == 0 {
      WithoutAbsent(s[1..], s[0]);
    } else {
      WithoutAt(s[1..], i - 1);
      assert s[1..][..i - 1] == s[1..i] && s[1..][i..] == s[i + 1..];
      assert [s[0]] + s[1..i] == s[..i];
      Assoc([s[0]], s[1..i], s[i + 1..]);
    }
  }
}
