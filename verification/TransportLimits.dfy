/**
  What the limits of exception transport mean for plain values and chains: sizes
  in bytes, and how long, wide and deep an argument or a chain may be.
*/
module TransportLimits {
  import opened Wrappers
  import opened Sequences
  import opened TransportValues
  import Chains = ExceptionChains

  // ----- Sizes in bytes -----------------------------------------------------

  // How many numbers k bits and k bytes can hold.
  ghost function BitRange(k: nat): nat {
    if k == 0 then 1 else 2 * BitRange(k - 1)
  }

  ghost function ByteRange(k: nat): nat {
    if k == 0 then 1 else 256 * ByteRange(k - 1)
  }

  lemma {:induction false} BitLengthIs(n: nat)
    ensures n < BitRange(BitLength(n)) && (n > 0 ==> BitRange(BitLength(n) - 1) <= n)
  {
    if n > 0 {
      BitLengthIs(n / 2);
    }
  }

  lemma {:induction false} BitRangeGrows(j: nat, k: nat)
    requires j <= k
    ensures BitRange(j) <= BitRange(k)
    decreases k
  {
    if j < k {
      BitRangeGrows(j, k - 1);
    }
  }

  lemma {:induction false} BytesAreBits(k: nat)
    ensures ByteRange(k) == BitRange(8 * k)
  {
    if k > 0 {
      BytesAreBits(k - 1);
      EightBits(8 * (k - 1));
    }
  }

  lemma {:induction false} EightBits(j: nat)
    ensures BitRange(j + 8) == 256 * BitRange(j)
  {
    assert BitRange(j + 2) == 4 * BitRange(j);
    assert BitRange(j + 4) == 4 * BitRange(j + 2);
    assert BitRange(j + 6) == 4 * BitRange(j + 4);
    assert BitRange(j + 8) == 4 * BitRange(j + 6);
  }

  // m fits in k bytes, at least one, and not in fewer.
  ghost predicate FewestBytes(m: nat, k: nat) {
    k >= 1 && m < ByteRange(k) && (k > 1 ==> ByteRange(k - 1) <= m)
  }

  lemma {:induction false} WholeBytes(m: nat, k: nat)
    requires k == Max(1, (BitLength(m) + 7) / 8)
    ensures FewestBytes(m, k)
  {
    var bits := BitLength(m);
    assert bits <= 8 * k && (k > 1 ==> 8 * (k - 1) <= bits - 1);
    BitLengthIs(m);
    BytesAreBits(k);
    BitRangeGrows(bits, 8 * k);
    if k > 1 {
      BytesAreBits(k - 1);
      BitRangeGrows(8 * (k - 1), bits - 1);
    }
  }

  /** An integer counts the fewest bytes its magnitude fits in, at least one. */
  lemma {:induction false} IntSizeIs(n: int)
    ensures FewestBytes(if n < 0 then -n else n, AtomSize(Int(n)))
  {
    WholeBytes(if n < 0 then -n else n, AtomSize(Int(n)));
  }

  // UTF-8 as in section 3 of RFC 3629, surrogates passed through.
  ghost function Encoded(c: nat): seq<nat> {
    if c < 0x80 then [c]
    else if c < 0x800 then [0xC0 + c / 0x40, 0x80 + c % 0x40]
    else if c < 0x10000 then [0xE0 + c / 0x1000, 0x80 + c / 0x40 % 0x40, 0x80 + c % 0x40]
    else [0xF0 + c / 0x40000, 0x80 + c / 0x1000 % 0x40, 0x80 + c / 0x40 % 0x40, 0x80 + c % 0x40]
  }

  /** A text counts the bytes of its UTF-8 form. */
  lemma {:induction false} TextSizeIs(chars: seq<nat>)
    ensures AtomSize(Text(chars)) == |Flatten(seq(|chars|, i requires 0 <= i < |chars| => Encoded(chars[i])))|
  {
    var all := seq(|chars|, i requires 0 <= i < |chars| => Encoded(chars[i]));
    if chars != [] {
      TextSizeIs(chars[1..]);
      assert all[1..] == seq(|chars[1..]|, i requires 0 <= i < |chars[1..]| => Encoded(chars[1..][i]));
    }
  }

  // ----- Arguments ----------------------------------------------------------

  ghost function Nested(n: nat): Tree {
    if n == 0 then Leaf(Null) else Node(List, [Nested(n - 1)])
  }

  lemma {:induction false} NestedMeasures(n: nat)
    ensures Size(Nested(n)) == n + 1 && LeafBytes(Nested(n)) == 1 && Height(Nested(n)) == n
  {
    if n > 0 {
      NestedMeasures(n - 1);
      OneChild(Nested(n - 1));
    }
  }

  lemma {:induction false} OneChild(t: Tree)
    ensures SizeAll([t]) == Size(t) && LeafBytesAll([t]) == LeafBytes(t) && HeightAll([t]) == Height(t)
  {
    assert [t][1..] == [] && SizeAll([]) == 0 && LeafBytesAll([]) == 0 && HeightAll([]) == 0;
  }

  ghost function Nulls(n: nat): (ts: seq<Tree>)
    ensures |ts| == n
  {
    if n == 0 then [] else [Leaf(Null)] + Nulls(n - 1)
  }

  lemma {:induction false} NullsMeasure(n: nat)
    ensures SizeAll(Nulls(n)) == n && LeafBytesAll(Nulls(n)) == n && HeightAll(Nulls(n)) == 0
  {
    if n > 0 {
      NullsMeasure(n - 1);
      assert Nulls(n)[1..] == Nulls(n - 1);
    }
  }

  ghost predicate Accepted(h: Heap, v: Value) {
    Copy(h, v, 0, {}, FULL_BUDGET).Success?
  }

  lemma {:induction false} AcceptedExactlyWhen(h: Heap, v: Value, t: Tree)
    requires DictsOk(h) && Unfolds(h, v, t)
    ensures Accepted(h, v) <==> Size(t) <= 1024 && LeafBytes(t) <= 65536 && Height(t) <= 16
  {
    CopySucceedsExactlyWhen(h, v, FULL_BUDGET);
    if Accepted(h, v) {
      var u :| Unfolds(h, v, u) && Fits(u, 0, FULL_BUDGET);
      UnfoldingUnique(h, v, t, u);
    }
    if Size(t) <= 1024 && LeafBytes(t) <= 65536 && Height(t) <= 16 {
      assert Fits(t, 0, FULL_BUDGET);
    }
  }

  /** Sixteen lists around each other are accepted, and no more. */
  lemma {:induction false} DeepestList(h: Heap, v: Value, n: nat)
    requires DictsOk(h) && Unfolds(h, v, Nested(n))
    ensures Accepted(h, v) <==> n <= 16
  {
    NestedMeasures(n);
    AcceptedExactlyWhen(h, v, Nested(n));
  }

  /** A list or tuple of up to 1023 plain items is accepted. */
  lemma {:induction false} LongestList(h: Heap, v: Value, kind: Kind, n: nat)
    requires DictsOk(h) && Unfolds(h, v, Node(kind, Nulls(n)))
    ensures Accepted(h, v) <==> n <= 1023
  {
    NullsMeasure(n);
    AcceptedExactlyWhen(h, v, Node(kind, Nulls(n)));
  }

  /** Up to 65536 bytes are accepted. */
  lemma {:induction false} LongestBytes(h: Heap, bytes: seq<nat>)
    requires DictsOk(h)
    ensures Accepted(h, Plain(Bytes(bytes))) <==> |bytes| <= 65536
  {
    AcceptedExactlyWhen(h, Plain(Bytes(bytes)), Leaf(Bytes(bytes)));
  }

  /** Beside a float there is room for eight bytes less, beside None, true or false
      for one. */
  lemma {:induction false} BytesBeside(h: Heap, v: Value, bytes: seq<nat>, a: Atom)
    requires DictsOk(h) && (a.Null? || a.Bool? || a.Float?)
    requires Unfolds(h, v, Node(Tuple, [Leaf(Bytes(bytes)), Leaf(a)]))
    ensures Accepted(h, v) <==> |bytes| + (if a.Float? then 8 else 1) <= 65536
  {
    var ts := [Leaf(Bytes(bytes)), Leaf(a)];
    assert ts[1..] == [Leaf(a)];
    OneChild(Leaf(a));
    assert SizeAll(ts) == 2 && HeightAll(ts) == 0 && LeafBytesAll(ts) == |bytes| + AtomSize(a);
    AcceptedExactlyWhen(h, v, Node(Tuple, ts));
  }

  // ----- Chains -------------------------------------------------------------

  // Exceptions 0 .. n-1, each caused by the next.
  ghost predicate Straight<C>(excs: Chains.Excs<C>, n: nat) {
    && (forall i: nat :: i < n <==> i in excs)
    && (forall i: nat :: i < n ==>
          excs[i].cause == (if i + 1 < n then Some(i + 1) else None) && excs[i].context == None)
  }

  ghost function From(i: nat, n: nat): (ids: seq<nat>)
    requires i <= n
    ensures |ids| == n - i
    decreases n - i
  {
    if i == n then [] else [i] + From(i + 1, n)
  }

  lemma {:induction false} StraightTrail<C>(excs: Chains.Excs<C>, n: nat, i: nat, length: nat, seen: set<nat>)
    requires Straight(excs, n) && i < n && length > 0 && forall j :: j in seen ==> j < i
    ensures Chains.Trail(excs, i, length, seen) == From(i, Min(n, i + length))
    decreases length
  {
    if length > 1 && i + 1 < n {
      StraightTrail(excs, n, i + 1, length - 1, seen + {i});
    } else {
      assert From(i + 1, i + 1) == [];
    }
  }

  /** Of a chain of n exceptions the first seventeen are sent. */
  lemma {:induction false} LongestChain<C>(excs: Chains.Excs<C>, n: nat)
    requires Straight(excs, n) && n > 0 && Chains.Closed(excs) && Chains.Serialize(excs, 0, 0, {}).Success?
    ensures |Chains.Spine(Chains.Serialize(excs, 0, 0, {}).value)| == Min(n, 17)
  {
    Chains.PayloadDescribesChain(excs, 0);
    StraightTrail(excs, n, 0, 17, {});
  }

  /** A payload has a cause when its exception has one, and a context when there is
      no cause and the context is not suppressed. */
  lemma {:induction false} LinksSent<C>(excs: Chains.Excs<C>, id: nat)
    requires Chains.Closed(excs) && id in excs && Chains.Serialize(excs, id, 0, {}).Success?
    ensures var p, e := Chains.Serialize(excs, id, 0, {}).value, excs[id];
            && (p.cause.Some? <==> e.cause.Some?)
            && (p.context.Some? <==> e.cause == None && e.context.Some? && !e.suppress)
  {
    assert Chains.LinksKnown(excs, id);
  }
}
