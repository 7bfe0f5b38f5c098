/**
  What Git hashes for a file, a link and a directory, told by bytes and
  positions, and the proof that the id of a source tree is exactly that.
*/
module GitObjects {
  import opened Sequences
  import opened SourceTreeId

  // ----- Bytes --------------------------------------------------------------

  ghost function Ascii(text: string): Bytes {
    seq(|text|, i requires 0 <= i < |text| => (text[i] as int % 256) as Byte)
  }

  ghost function Value(digits: Bytes): int {
    if digits == [] then 0
    else 10 * Value(digits[..|digits| - 1]) + digits[|digits| - 1] as int - '0' as int
  }

  ghost predicate IsDecimal(digits: Bytes, n: nat) {
    && digits != [] && Value(digits) == n
    && (forall i :: 0 <= i < |digits| ==> '0' as int <= digits[i] as int <= '9' as int)
    && (|digits| > 1 ==> digits[0] as int != '0' as int)
  }

  // At some position a ends before b does, or holds a smaller byte.
  ghost predicate BelowAt(a: Bytes, b: Bytes, k: nat) {
    k <= |a| && k < |b| && a[..k] == b[..k] && (k == |a| || a[k] < b[k])
  }

  ghost predicate Below(a: Bytes, b: Bytes) {
    exists k :: BelowAt(a, b, k)
  }

  // ----- Objects ------------------------------------------------------------

  ghost predicate IsObject(kind: string, contents: Bytes, data: Bytes) {
    exists digits :: IsDecimal(digits, |contents|) && data == Ascii(kind) + Ascii(" ") + digits + [NUL] + contents
  }

  ghost function ModeText(t: Node): string {
    match t
    case File(exec, _, _) => if exec then "100755" else "100644"
    case Link(_) => "120000"
    case Dir(_) => "40000"
    case Special => ""
  }

  ghost function EntryBytes(c: Child, id: Bytes): Bytes {
    Ascii(ModeText(c.node)) + Ascii(" ") + c.name + [NUL] + id
  }

  // Names are compared as if directories ended in a slash.
  ghost predicate Precedes(c: Child, d: Child) {
    Below(c.name + (if c.node.Dir? then Ascii("/") else []), d.name + (if d.node.Dir? then Ascii("/") else []))
  }

  ghost predicate IsOrder(order: seq<nat>, children: seq<Child>) {
    && |order| == |children| && (forall i :: 0 <= i < |children| ==> i in order)
    && (forall k :: 0 <= k < |order| ==> order[k] < |children|)
    && (forall k, l :: 0 <= k < l < |order| ==> Precedes(children[order[k]], children[order[l]]))
  }

  ghost function Listing(children: seq<Child>, ids: seq<Bytes>, order: seq<nat>): Bytes
    requires |ids| == |children| && forall k :: 0 <= k < |order| ==> order[k] < |children|
  {
    if order == [] then []
    else EntryBytes(children[order[0]], ids[order[0]]) + Listing(children, ids, order[1..])
  }

  ghost predicate IsTree(hash: Bytes -> Bytes, children: seq<Child>, ids: seq<Bytes>, order: seq<nat>, id: Bytes) {
    && |ids| == |children| && IsOrder(order, children)
    && exists data :: IsObject("tree", Listing(children, ids, order), data) && id == hash(data)
  }

  ghost predicate IsBlob(hash: Bytes -> Bytes, contents: Bytes, id: Bytes) {
    exists data :: IsObject("blob", contents, data) && id == hash(data)
  }

  ghost predicate IsId(hash: Bytes -> Bytes, t: Node, id: Bytes)
    decreases t, 0
  {
    match t
    case File(_, _, content) => IsBlob(hash, content, id)
    case Link(target) => IsBlob(hash, target, id)
    case Dir(children) => exists ids, order :: AreIds(hash, children, ids) && IsTree(hash, children, ids, order, id)
    case Special => false
  }

  ghost predicate AreIds(hash: Bytes -> Bytes, children: seq<Child>, ids: seq<Bytes>)
    decreases children
  {
    |ids| == |children| && forall i :: 0 <= i < |children| ==> IsId(hash, children[i].node, ids[i])
  }

  // ----- Decimals -----------------------------------------------------------

  lemma {:induction false} DecimalIs(n: nat)
    ensures IsDecimal(Decimal(n), n)
    ensures n > 0 ==> Decimal(n)[0] != ZERO
  {
    var last := ZERO + (n % 10) as Byte;
    if n < 10 {
      assert Decimal(n) == [last];
      assert Decimal(n)[..0] == [];
    } else {
      DecimalIs(n / 10);
      OneMoreDigit(Decimal(n / 10), n / 10, n % 10);
    }
  }

  lemma {:induction false} OneMoreDigit(digits: Bytes, n: nat, d: nat)
    requires IsDecimal(digits, n) && digits[0] != ZERO && d < 10
    ensures IsDecimal(digits + [ZERO + d as Byte], 10 * n + d)
  {
    var longer := digits + [ZERO + d as Byte];
    assert longer[..|longer| - 1] == digits && longer[0] == digits[0];
  }

  lemma {:induction false} ValueAtLeast(digits: Bytes)
    requires forall i :: 0 <= i < |digits| ==> '0' as int <= digits[i] as int <= '9' as int
    ensures Value(digits) >= 0
    ensures digits != [] && digits[0] as int != '0' as int ==> Value(digits) > 0
    decreases |digits|
  {
    if digits != [] {
      ValueAtLeast(digits[..|digits| - 1]);
    }
  }

  lemma {:induction false} DecimalUnique(digits: Bytes, n: nat)
    requires IsDecimal(digits, n)
    ensures digits == Decimal(n)
    decreases |digits|
  {
    var init, last := digits[..|digits| - 1], digits[|digits| - 1];
    ValueAtLeast(init);
    assert digits == init + [last];
    assert n / 10 == Value(init) && n % 10 == last as int - '0' as int;
    if |digits| > 1 {
      DecimalUnique(init, n / 10);
    }
  }

  lemma {:induction false} ObjectIs(kind: string, contents: Bytes, data: Bytes)
    ensures IsObject(kind, contents, data) <==> data == Object(Ascii(kind), contents)
  {
    DecimalIs(|contents|);
    assert Ascii(" ") == [SPACE];
    if IsObject(kind, contents, data) {
      var digits :| IsDecimal(digits, |contents|) &&
                    data == Ascii(kind) + Ascii(" ") + digits + [NUL] + contents;
      DecimalUnique(digits, |contents|);
    }
  }

  // ----- The byte order -----------------------------------------------------

  lemma {:induction false} BelowExactly(a: Bytes, b: Bytes)
    ensures LexLess(a, b) <==> Below(a, b)
  {
    if LexLess(a, b) {
      var k := LexLessAt(a, b);
    }
    if Below(a, b) {
      var k :| BelowAt(a, b, k);
      BelowIsLexLess(a, b, k);
    }
  }

  lemma {:induction false} LexLessAt(a: Bytes, b: Bytes) returns (k: nat)
    requires LexLess(a, b)
    ensures BelowAt(a, b, k)
  {
    if a == [] || a[0] < b[0] {
      k := 0;
    } else {
      k := LexLessAt(a[1..], b[1..]);
      k := k + 1;
      assert a[..k] == [a[0]] + a[1..][..k - 1] && b[..k] == [b[0]] + b[1..][..k - 1];
    }
  }

  lemma {:induction false} BelowIsLexLess(a: Bytes, b: Bytes, k: nat)
    requires BelowAt(a, b, k)
    ensures LexLess(a, b)
    decreases k
  {
    if k > 0 {
      assert a[..k][0] == b[..k][0];
      assert a[1..][..k - 1] == a[..k][1..] && b[1..][..k - 1] == b[..k][1..];
      BelowIsLexLess(a[1..], b[1..], k - 1);
    }
  }

  // ----- Directories --------------------------------------------------------

  ghost function EntryFor(c: Child, id: Bytes): Entry {
    Entry(Mode(c.node), c.name, id)
  }

  lemma {:induction false} ModeIs(t: Node)
    ensures Ascii(ModeText(t)) == Mode(t) && (Mode(t) == DIR_MODE <==> t.Dir?)
  {
    assert |LINK_MODE| == 6 && |EXEC_MODE| == 6 && |FILE_MODE| == 6 && |DIR_MODE| == 5;
    assert Ascii("120000") == LINK_MODE && Ascii("40000") == DIR_MODE;
    assert Ascii("100755") == EXEC_MODE && Ascii("100644") == FILE_MODE;
  }

  lemma {:induction false} EntryBytesAre(c: Child, id: Bytes)
    ensures EntryBytes(c, id) == Line(EntryFor(c, id))
  {
    ModeIs(c.node);
    assert Ascii(" ") == [SPACE];
  }

  lemma {:induction false} PrecedesExactly(c: Child, cid: Bytes, d: Child, did: Bytes)
    ensures Precedes(c, d) <==> LexLess(SortName(EntryFor(c, cid)), SortName(EntryFor(d, did)))
  {
    ModeIs(c.node);
    ModeIs(d.node);
    assert Ascii("/") == [SLASH];
    assert c.name + [] == c.name && d.name + [] == d.name;
    BelowExactly(SortName(EntryFor(c, cid)), SortName(EntryFor(d, did)));
  }

  // The entries in the given order.
  ghost function Picked(es: seq<Entry>, order: seq<nat>): (fs: seq<Entry>)
    requires forall k :: 0 <= k < |order| ==> order[k] < |es|
    ensures |fs| == |order| && forall k :: 0 <= k < |order| ==> fs[k] == es[order[k]]
  {
    seq(|order|, k requires 0 <= k < |order| => es[order[k]])
  }

  ghost predicate EntriesFor(children: seq<Child>, ids: seq<Bytes>, es: seq<Entry>) {
    |ids| == |children| == |es| && forall i :: 0 <= i < |es| ==> es[i] == EntryFor(children[i], ids[i])
  }

  lemma {:induction false} ListingIsLines(children: seq<Child>, ids: seq<Bytes>, es: seq<Entry>, order: seq<nat>)
    requires EntriesFor(children, ids, es) && forall k :: 0 <= k < |order| ==> order[k] < |children|
    ensures Listing(children, ids, order) == Lines(Picked(es, order))
    decreases |order|
  {
    if order != [] {
      EntryBytesAre(children[order[0]], ids[order[0]]);
      ListingIsLines(children, ids, es, order[1..]);
      assert Picked(es, order)[1..] == Picked(es, order[1..]);
    }
  }

  lemma {:induction false} OrderSorts(children: seq<Child>, ids: seq<Bytes>, es: seq<Entry>, order: seq<nat>)
    requires EntriesFor(children, ids, es) && DistinctNames(es) && IsOrder(order, children)
    ensures Picked(es, order) == Sort(es)
  {
    var fs := Picked(es, order);
    forall k, l | 0 <= k < l < |fs| ensures Before(fs[k], fs[l]) {
      var i, j := order[k], order[l];
      assert Precedes(children[i], children[j]);
      PrecedesExactly(children[i], ids[i], children[j], ids[j]);
    }
    forall x | x in es ensures x in fs {
      var i :| 0 <= i < |es| && es[i] == x;
      assert i in order;
      var k :| 0 <= k < |order| && order[k] == i;
      assert fs[k] == x;
    }
    SortIsSorted(es);
    SortedUnique(fs, Sort(es));
  }

  lemma {:induction false} PickOrder(es: seq<Entry>, fs: seq<Entry>) returns (order: seq<nat>)
    requires forall x :: x in fs ==> x in es
    ensures |order| == |fs| && forall k :: 0 <= k < |fs| ==> order[k] < |es| && es[order[k]] == fs[k]
  {
    if fs == [] {
      order := [];
    } else {
      var rest := PickOrder(es, fs[1..]);
      assert fs[0] in fs;
      var i :| 0 <= i < |es| && es[i] == fs[0];
      order := [i] + rest;
    }
  }

  lemma {:induction false} SortOrders(children: seq<Child>, ids: seq<Bytes>, es: seq<Entry>) returns (order: seq<nat>)
    requires EntriesFor(children, ids, es) && DistinctNames(es)
    ensures IsOrder(order, children)
  {
    var fs := Sort(es);
    SortIsSorted(es);
    order := PickOrder(es, fs);
    forall i | 0 <= i < |children| ensures i in order {
      assert es[i] in fs;
      var k :| 0 <= k < |fs| && fs[k] == es[i];
      assert order[k] == i;
    }
    forall k, l | 0 <= k < l < |order| ensures Precedes(children[order[k]], children[order[l]]) {
      var i, j := order[k], order[l];
      assert Before(fs[k], fs[l]);
      BeforeIrreflexive(fs[k]);
      assert i != j;
      SortNamesDiffer(es[i], es[j]);
      PrecedesExactly(children[i], ids[i], children[j], ids[j]);
    }
  }

  lemma {:induction false} TreeIs(hash: Bytes -> Bytes, children: seq<Child>, ids: seq<Bytes>, es: seq<Entry>,
                                  id: Bytes)
    requires EntriesFor(children, ids, es) && DistinctNames(es)
    ensures (exists order :: IsTree(hash, children, ids, order, id)) <==> id == hash(Object(TREE, Lines(Sort(es))))
  {
    assert Ascii("tree") == TREE;
    var order := SortOrders(children, ids, es);
    OrderSorts(children, ids, es, order);
    ListingIsLines(children, ids, es, order);
    var data := Object(TREE, Lines(Sort(es)));
    ObjectIs("tree", Listing(children, ids, order), data);
    if id == hash(data) {
      assert IsTree(hash, children, ids, order, id);
    }
    if order' :| IsTree(hash, children, ids, order', id) {
      OrderSorts(children, ids, es, order');
      ListingIsLines(children, ids, es, order');
      var data' :| IsObject("tree", Listing(children, ids, order'), data') && id == hash(data');
      ObjectIs("tree", Listing(children, ids, order'), data');
    }
  }

  lemma {:induction false} BlobIs(hash: Bytes -> Bytes, contents: Bytes, id: Bytes)
    ensures IsBlob(hash, contents, id) <==> id == hash(Object(BLOB, contents))
  {
    assert Ascii("blob") == BLOB;
    ObjectIs("blob", contents, Object(BLOB, contents));
    if IsBlob(hash, contents, id) {
      var data :| IsObject("blob", contents, data) && id == hash(data);
      ObjectIs("blob", contents, data);
    }
  }

  // ----- The id -------------------------------------------------------------

  ghost function Ids(hash: Bytes -> Bytes, children: seq<Child>): (ids: seq<Bytes>)
    requires AllReadable(children)
    ensures |ids| == |children| && forall i :: 0 <= i < |ids| ==> ids[i] == Id(hash, children[i].node)
  {
    seq(|children|, i requires 0 <= i < |children| => Id(hash, children[i].node))
  }

  lemma {:induction false} IdsAre(hash: Bytes -> Bytes, children: seq<Child>, ids: seq<Bytes>)
    requires AllReadable(children) && forall i :: 0 <= i < |children| ==> WellFormed(children[i].node)
    ensures AreIds(hash, children, ids) <==> ids == Ids(hash, children)
    decreases children, 0
  {
    if |ids| == |children| {
      forall i | 0 <= i < |children|
        ensures IsId(hash, children[i].node, ids[i]) <==> ids[i] == Id(hash, children[i].node)
      {
        IdIsGits(hash, children[i].node, ids[i]);
      }
      if AreIds(hash, children, ids) {
        assert forall i :: 0 <= i < |ids| ==> IsId(hash, children[i].node, ids[i]);
      }
    }
  }

  /** The id of a source tree is the one Git gives it: for every file and link the
      hash of its blob, and for every directory the hash of its entries, each
      directory compared as if its name ended in a slash. */
  lemma {:induction false} IdIsGits(hash: Bytes -> Bytes, t: Node, id: Bytes)
    requires Readable(t) && WellFormed(t)
    ensures IsId(hash, t, id) <==> id == Id(hash, t)
    decreases t, 1
  {
    match t
    case File(_, _, content) => BlobIs(hash, content, id);
    case Link(target) => BlobIs(hash, target, id);
    case Dir(children) =>
      var own := Ids(hash, children);
      IdsAre(hash, children, own);
      EntriesDistinct(hash, children);
      TreeIs(hash, children, own, EntriesOf(hash, children), id);
      if IsId(hash, t, id) {
        var ids, order :| AreIds(hash, children, ids) && IsTree(hash, children, ids, order, id);
        IdsAre(hash, children, ids);
      }
  }
}
