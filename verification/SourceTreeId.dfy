/**
  The Merkle-style id of a source tree: every file and link is hashed as a blob,
  every directory as the sorted concatenation of its entries.
*/
module SourceTreeId {
  import opened Wrappers
  import opened Sequences

  newtype Byte = b: int | 0 <= b < 256

  type Bytes = seq<Byte>

  const NUL: Byte := 0
  const SPACE: Byte := 32
  const SLASH: Byte := 47
  const ZERO: Byte := 48
  const BLOB: Bytes := [98, 108, 111, 98]
  const TREE: Bytes := [116, 114, 101, 101]
  const LINK_MODE: Bytes := [49, 50, 48, 48, 48, 48]
  const DIR_MODE: Bytes := [52, 48, 48, 48, 48]
  const EXEC_MODE: Bytes := [49, 48, 48, 55, 53, 53]
  const FILE_MODE: Bytes := [49, 48, 48, 54, 52, 52]
  const READ_SIZE: nat := 1024 * 1024

  // A directory lists its children in the order the file system returns them.
  // `size` is what the metadata says, `content` what reading the file yields.
  datatype Node =
    | File(exec: bool, size: nat, content: Bytes)
    | Link(target: Bytes)
    | Dir(children: seq<Child>)
    | Special

  datatype Child = Child(name: Bytes, node: Node)

  datatype Error = UnsupportedFileType | ChangedWhileReading

  // What a file system guarantees of names.
  predicate NamesOk(children: seq<Child>) {
    && (forall i :: 0 <= i < |children| ==> NUL !in children[i].name && SLASH !in children[i].name)
    && (forall i, j :: 0 <= i < j < |children| ==> children[i].name != children[j].name)
  }

  predicate WellFormed(t: Node)
    decreases t
  {
    t.Dir? ==> NamesOk(t.children) && forall i :: 0 <= i < |t.children| ==> WellFormed(t.children[i].node)
  }

  predicate Readable(t: Node)
    decreases t
  {
    match t
    case File(_, size, content) => size == |content|
    case Link(_) => true
    case Dir(children) => forall i :: 0 <= i < |children| ==> Readable(children[i].node)
    case Special => false
  }

  predicate AllReadable(children: seq<Child>) {
    forall i :: 0 <= i < |children| ==> Readable(children[i].node)
  }

  // The hashed objects

  function Decimal(n: nat): (r: Bytes)
    ensures NUL !in r && SPACE !in r
  {
    (if n < 10 then [] else Decimal(n / 10)) + [ZERO + (n % 10) as Byte]
  }

  function Header(kind: Bytes, size: nat): Bytes {
    kind + [SPACE] + Decimal(size)
  }

  function Object(kind: Bytes, contents: Bytes): Bytes {
    Header(kind, |contents|) + [NUL] + contents
  }

  datatype Entry = Entry(mode: Bytes, name: Bytes, id: Bytes)

  function Line(e: Entry): Bytes {
    e.mode + [SPACE] + (e.name + [NUL] + e.id)
  }

  function SortName(e: Entry): Bytes {
    if e.mode == DIR_MODE then e.name + [SLASH] else e.name
  }

  function Lines(es: seq<Entry>): Bytes {
    if es == [] then [] else Line(es[0]) + Lines(es[1..])
  }

  function Mode(t: Node): Bytes {
    match t
    case File(exec, _, _) => if exec then EXEC_MODE else FILE_MODE
    case Link(_) => LINK_MODE
    case Dir(_) => DIR_MODE
    case Special => []
  }

  // The byte order

  predicate LexLess(a: Bytes, b: Bytes) {
    if b == [] then false
    else if a == [] then true
    else a[0] < b[0] || (a[0] == b[0] && LexLess(a[1..], b[1..]))
  }

  lemma {:induction false} LexIrreflexive(a: Bytes)
    ensures !LexLess(a, a)
  {
    if a != [] {
      LexIrreflexive(a[1..]);
    }
  }

  lemma {:induction false} LexTransitive(a: Bytes, b: Bytes, c: Bytes)
    requires LexLess(a, b) && LexLess(b, c)
    ensures LexLess(a, c)
  {
    if a != [] && a[0] == b[0] && b[0] == c[0] {
      LexTransitive(a[1..], b[1..], c[1..]);
    }
  }

  lemma {:induction false} LexTotal(a: Bytes, b: Bytes)
    ensures LexLess(a, b) || a == b || LexLess(b, a)
  {
    if a != [] && b != [] && a[0] == b[0] {
      LexTotal(a[1..], b[1..]);
      assert a == [a[0]] + a[1..] && b == [b[0]] + b[1..];
    }
  }

  // Entries are sorted as pairs of sort name and line.
  predicate Before(d: Entry, e: Entry) {
    LexLess(SortName(d), SortName(e)) || (SortName(d) == SortName(e) && LexLess(Line(d), Line(e)))
  }

  lemma {:induction false} BeforeIrreflexive(e: Entry)
    ensures !Before(e, e)
  {
    LexIrreflexive(SortName(e));
    LexIrreflexive(Line(e));
  }

  lemma {:induction false} BeforeTransitive(c: Entry, d: Entry, e: Entry)
    requires Before(c, d) && Before(d, e)
    ensures Before(c, e)
  {
    if LexLess(SortName(c), SortName(d)) && LexLess(SortName(d), SortName(e)) {
      LexTransitive(SortName(c), SortName(d), SortName(e));
    } else if SortName(c) == SortName(d) && SortName(d) == SortName(e) {
      LexTransitive(Line(c), Line(d), Line(e));
    }
  }

  // Names hold no slash, so a directory never shares its sort name.
  lemma {:induction false} SortNamesDiffer(d: Entry, e: Entry)
    requires SLASH !in d.name && SLASH !in e.name && d.name != e.name
    ensures SortName(d) != SortName(e)
  {
    assert (d.name + [SLASH])[|d.name|] == SLASH && (e.name + [SLASH])[|e.name|] == SLASH;
    assert (d.name + [SLASH])[..|d.name|] == d.name && (e.name + [SLASH])[..|e.name|] == e.name;
  }

  predicate StrictlySorted(es: seq<Entry>) {
    forall i, j :: 0 <= i < j < |es| ==> Before(es[i], es[j])
  }

  predicate DistinctNames(es: seq<Entry>) {
    && (forall e :: e in es ==> SLASH !in e.name)
    && (forall i, j :: 0 <= i < j < |es| ==> es[i].name != es[j].name)
  }

  function Insert(e: Entry, es: seq<Entry>): (r: seq<Entry>)
    ensures |r| == |es| + 1 && forall x :: x in r <==> x == e || x in es
  {
    if es == [] || !Before(es[0], e) then [e] + es
    else
      assert es == [es[0]] + es[1..];
      [es[0]] + Insert(e, es[1..])
  }

  function Sort(es: seq<Entry>): (r: seq<Entry>)
    ensures |r| == |es| && forall x :: x in r <==> x in es
  {
    if es == [] then []
    else
      assert es == [es[0]] + es[1..];
      Insert(es[0], Sort(es[1..]))
  }

  lemma {:induction false} InsertKeepsSorted(e: Entry, es: seq<Entry>)
    requires StrictlySorted(es) && SLASH !in e.name
    requires forall x :: x in es ==> SLASH !in x.name && x.name != e.name
    ensures StrictlySorted(Insert(e, es))
  {
    if es != [] {
      SortNamesDiffer(e, es[0]);
      LexTotal(SortName(e), SortName(es[0]));
      if Before(es[0], e) {
        var rest := Insert(e, es[1..]);
        InsertKeepsSorted(e, es[1..]);
        assert forall x :: x in rest ==> Before(es[0], x);
        SortedCons(es[0], rest);
      } else {
        forall x | x in es
          ensures Before(e, x)
        {
          if x != es[0] {
            BeforeTransitive(e, es[0], x);
          }
        }
        SortedCons(e, es);
      }
    }
  }

  lemma {:induction false} SortedCons(e: Entry, es: seq<Entry>)
    requires StrictlySorted(es) && forall x :: x in es ==> Before(e, x)
    ensures StrictlySorted([e] + es)
  {
    var all := [e] + es;
    forall i, j | 0 <= i < j < |all|
      ensures Before(all[i], all[j])
    {
      assert all[j] == es[j - 1];
      if i > 0 {
        assert all[i] == es[i - 1];
      }
    }
  }

  lemma {:induction false} SortIsSorted(es: seq<Entry>)
    requires DistinctNames(es)
    ensures StrictlySorted(Sort(es))
  {
    if es != [] {
      SortIsSorted(es[1..]);
      InsertKeepsSorted(es[0], Sort(es[1..]));
    }
  }

  lemma {:induction false} SortedUnique(es: seq<Entry>, fs: seq<Entry>)
    requires StrictlySorted(es) && StrictlySorted(fs)
    requires forall x :: x in es <==> x in fs
    ensures es == fs
  {
    assert es != [] ==> es[0] in es;
    assert fs != [] ==> fs[0] in fs;
    if es != [] && fs != [] {
      if es[0] != fs[0] {
        BeforeTransitive(es[0], fs[0], es[0]);
        BeforeIrreflexive(es[0]);
        assert false;
      }
      HeadOnce(es);
      HeadOnce(fs);
      SortedUnique(es[1..], fs[1..]);
      assert es == [es[0]] + es[1..] && fs == [fs[0]] + fs[1..];
    }
  }

  lemma {:induction false} HeadOnce(es: seq<Entry>)
    requires StrictlySorted(es) && es != []
    ensures StrictlySorted(es[1..])
    ensures forall x :: x in es[1..] <==> x in es && x != es[0]
  {
    BeforeIrreflexive(es[0]);
    assert es == [es[0]] + es[1..];
  }

  // The id

  function Id(hash: Bytes -> Bytes, t: Node): Bytes
    requires Readable(t)
    decreases t, 0
  {
    match t
    case File(_, _, content) => hash(Object(BLOB, content))
    case Link(target) => hash(Object(BLOB, target))
    case Dir(children) => hash(TreeObject(hash, children))
  }

  function EntryOf(hash: Bytes -> Bytes, c: Child): Entry
    requires Readable(c.node)
    decreases c, 0
  {
    Entry(Mode(c.node), c.name, Id(hash, c.node))
  }

  function EntriesOf(hash: Bytes -> Bytes, children: seq<Child>): (es: seq<Entry>)
    requires AllReadable(children)
    ensures |es| == |children|
    ensures forall i :: 0 <= i < |es| ==> es[i] == EntryOf(hash, children[i])
    decreases children, 1
  {
    if children == [] then []
    else
      [EntryOf(hash, children[0])] + EntriesOf(hash, children[1..])
  }

  function TreeObject(hash: Bytes -> Bytes, children: seq<Child>): Bytes
    requires AllReadable(children)
    decreases children, 2
  {
    Object(TREE, Lines(Sort(EntriesOf(hash, children))))
  }

  // Every byte string hashed while computing the id.
  function Objects(hash: Bytes -> Bytes, t: Node): set<Bytes>
    requires Readable(t)
    decreases t
  {
    match t
    case File(_, _, content) => {Object(BLOB, content)}
    case Link(target) => {Object(BLOB, target)}
    case Dir(children) =>
      {TreeObject(hash, children)} +
      (set i, o | 0 <= i < |children| && o in Objects(hash, children[i].node) :: o)
  }

  predicate CollisionFree(hash: Bytes -> Bytes, objects: set<Bytes>) {
    forall a, b :: a in objects && b in objects && hash(a) == hash(b) ==> a == b
  }

  ghost predicate FixedLength(hash: Bytes -> Bytes, n: nat) {
    forall a :: |hash(a)| == n
  }

  // Agreement on every name, mode, link target and file content, whatever the
  // listing order and the recorded sizes.
  predicate Same(s: Node, t: Node)
    decreases s
  {
    match s
    case File(exec, _, content) => t.File? && t.exec == exec && t.content == content
    case Link(target) => t.Link? && t.target == target
    case Dir(children) =>
      && t.Dir?
      && (forall i {:trigger InRight(children[i], t.children)} ::
            0 <= i < |children| ==> InRight(children[i], t.children))
      && (forall j {:trigger InLeft(children, t.children[j])} ::
            0 <= j < |t.children| ==> InLeft(children, t.children[j]))
    case Special => t.Special?
  }

  predicate InRight(c: Child, ds: seq<Child>)
    decreases c, 1
  {
    exists j :: 0 <= j < |ds| && SameChild(c, ds[j])
  }

  predicate InLeft(cs: seq<Child>, d: Child)
    decreases cs
  {
    exists i :: 0 <= i < |cs| && SameChild(cs[i], d)
  }

  predicate SameChild(c: Child, d: Child)
    decreases c, 0
  {
    c.name == d.name && Same(c.node, d.node)
  }

  // Reading the entry stream back

  lemma {:induction false} SplitAt(sep: Byte, h: Bytes, s: Bytes, k: Bytes, t: Bytes)
    requires sep !in h && sep !in k && h + [sep] + s == k + [sep] + t
    ensures h == k && s == t
  {
    var all := h + [sep] + s;
    assert all[|h|] == sep && all[|k|] == sep;
    assert forall i :: 0 <= i < |h| ==> all[i] == h[i] && h[i] != sep;
    assert forall i :: 0 <= i < |k| ==> all[i] == k[i] && k[i] != sep;
    assert |h| == |k|;
    assert all[..|h|] == h && all[..|k|] == k && all[|h| + 1..] == s && all[|k| + 1..] == t;
  }

  predicate Legible(e: Entry, n: nat) {
    SPACE !in e.mode && NUL !in e.name && |e.id| == n
  }

  lemma {:induction false} LineThenRest(e: Entry, rest: Bytes)
    ensures Line(e) + rest == e.mode + [SPACE] + (e.name + [NUL] + (e.id + rest))
  {
  }

  lemma {:induction false} ReadLine(n: nat, d: Entry, s: Bytes, e: Entry, t: Bytes)
    requires Legible(d, n) && Legible(e, n) && Line(d) + s == Line(e) + t
    ensures d == e && s == t
  {
    LineThenRest(d, s);
    LineThenRest(e, t);
    SplitAt(SPACE, d.mode, d.name + [NUL] + (d.id + s), e.mode, e.name + [NUL] + (e.id + t));
    SplitAt(NUL, d.name, d.id + s, e.name, e.id + t);
    assert (d.id + s)[..n] == d.id && (e.id + t)[..n] == e.id;
    assert (d.id + s)[n..] == s && (e.id + t)[n..] == t;
  }

  /** The concatenated entries determine the list of entries. */
  lemma {:induction false} ReadLines(n: nat, es: seq<Entry>, fs: seq<Entry>)
    requires forall e :: e in es ==> Legible(e, n)
    requires forall e :: e in fs ==> Legible(e, n)
    requires Lines(es) == Lines(fs)
    ensures es == fs
  {
    assert forall e :: |Line(e)| > 0;
    if es != [] && fs != [] {
      ReadLine(n, es[0], Lines(es[1..]), fs[0], Lines(fs[1..]));
      ReadLines(n, es[1..], fs[1..]);
      assert es == [es[0]] + es[1..] && fs == [fs[0]] + fs[1..];
    }
  }

  lemma {:induction false} ReadObject(kind: Bytes, contents: Bytes, kind': Bytes, contents': Bytes)
    requires NUL !in kind && NUL !in kind' && Object(kind, contents) == Object(kind', contents')
    ensures contents == contents'
  {
    SplitAt(NUL, Header(kind, |contents|), contents, Header(kind', |contents'|), contents');
  }

  lemma {:induction false} EntriesDistinct(hash: Bytes -> Bytes, children: seq<Child>)
    requires AllReadable(children) && NamesOk(children)
    ensures DistinctNames(EntriesOf(hash, children))
  {
    var es := EntriesOf(hash, children);
    forall i | 0 <= i < |es|
      ensures SLASH !in es[i].name
    {
      assert es[i].name == children[i].name;
    }
  }

  lemma {:induction false} ModeHasNoSpace(t: Node)
    ensures SPACE !in Mode(t)
  {
    assert SPACE !in LINK_MODE && SPACE !in DIR_MODE && SPACE !in EXEC_MODE && SPACE !in FILE_MODE;
  }

  lemma {:induction false} IdLength(hash: Bytes -> Bytes, n: nat, t: Node)
    requires Readable(t) && FixedLength(hash, n)
    ensures |Id(hash, t)| == n
  {
    match t
    case File(_, _, content) => assert Id(hash, t) == hash(Object(BLOB, content));
    case Link(target) => assert Id(hash, t) == hash(Object(BLOB, target));
    case Dir(children) => assert Id(hash, t) == hash(TreeObject(hash, children));
  }

  lemma {:induction false} EntriesLegible(hash: Bytes -> Bytes, n: nat, children: seq<Child>)
    requires AllReadable(children) && FixedLength(hash, n) && NamesOk(children)
    ensures forall e :: e in EntriesOf(hash, children) ==> Legible(e, n)
  {
    var es := EntriesOf(hash, children);
    forall i | 0 <= i < |es|
      ensures Legible(es[i], n)
    {
      ModeHasNoSpace(children[i].node);
      IdLength(hash, n, children[i].node);
      assert es[i].name == children[i].name && es[i].mode == Mode(children[i].node);
    }
  }

  // Listing order does not matter

  /** Trees that agree have the same id. */
  lemma {:induction false} SameTreesSameId(hash: Bytes -> Bytes, s: Node, t: Node)
    requires Readable(s) && Readable(t) && WellFormed(s) && WellFormed(t) && Same(s, t)
    ensures Mode(s) == Mode(t) && Id(hash, s) == Id(hash, t)
    decreases s, 1
  {
    if s.Dir? {
      SameEntries(hash, s, t);
      EntriesDistinct(hash, s.children);
      EntriesDistinct(hash, t.children);
      SameEntriesSort(EntriesOf(hash, s.children), EntriesOf(hash, t.children));
    }
  }

  lemma {:induction false} SameEntries(hash: Bytes -> Bytes, s: Node, t: Node)
    requires Readable(s) && Readable(t) && WellFormed(s) && WellFormed(t) && Same(s, t) && s.Dir?
    ensures forall x :: x in EntriesOf(hash, s.children) <==> x in EntriesOf(hash, t.children)
    decreases s, 0
  {
    var es, fs := EntriesOf(hash, s.children), EntriesOf(hash, t.children);
    forall i | 0 <= i < |es|
      ensures es[i] in fs
    {
      var j := FindRight(s, t, i);
      SameTreesSameId(hash, s.children[i].node, t.children[j].node);
      assert es[i] == fs[j];
    }
    forall j | 0 <= j < |fs|
      ensures fs[j] in es
    {
      var i := FindLeft(s, t, j);
      SameTreesSameId(hash, s.children[i].node, t.children[j].node);
      assert es[i] == fs[j];
    }
  }

  // Both children can be hashed and agree.
  predicate Paired(c: Child, d: Child) {
    && c.name == d.name && Same(c.node, d.node)
    && Readable(c.node) && Readable(d.node) && WellFormed(c.node) && WellFormed(d.node)
  }

  lemma {:induction false} FindRight(s: Node, t: Node, i: nat) returns (j: nat)
    requires Readable(s) && Readable(t) && WellFormed(s) && WellFormed(t) && Same(s, t) && s.Dir? && i < |s.children|
    ensures j < |t.children| && Paired(s.children[i], t.children[j])
  {
    assert InRight(s.children[i], t.children);
    j :| 0 <= j < |t.children| && SameChild(s.children[i], t.children[j]);
  }

  lemma {:induction false} FindLeft(s: Node, t: Node, j: nat) returns (i: nat)
    requires Readable(s) && Readable(t) && WellFormed(s) && WellFormed(t) && Same(s, t) && t.Dir? && j < |t.children|
    ensures s.Dir? && i < |s.children| && Paired(s.children[i], t.children[j])
  {
    assert InLeft(s.children, t.children[j]);
    i :| 0 <= i < |s.children| && SameChild(s.children[i], t.children[j]);
  }

  lemma {:induction false} SameEntriesSort(es: seq<Entry>, fs: seq<Entry>)
    requires DistinctNames(es) && DistinctNames(fs)
    requires forall x :: x in es <==> x in fs
    ensures Sort(es) == Sort(fs)
  {
    SortIsSorted(es);
    SortIsSorted(fs);
    SortedUnique(Sort(es), Sort(fs));
  }

  // Equal ids come from equal trees

  lemma {:induction false} SameIdSameEntries(hash: Bytes -> Bytes, n: nat, cs: seq<Child>, ds: seq<Child>)
    requires AllReadable(cs) && AllReadable(ds)
    requires FixedLength(hash, n) && NamesOk(cs) && NamesOk(ds)
    requires TreeObject(hash, cs) == TreeObject(hash, ds)
    ensures forall x :: x in EntriesOf(hash, cs) <==> x in EntriesOf(hash, ds)
  {
    var es, fs := EntriesOf(hash, cs), EntriesOf(hash, ds);
    EntriesLegible(hash, n, cs);
    EntriesLegible(hash, n, ds);
    ReadObject(TREE, Lines(Sort(es)), TREE, Lines(Sort(fs)));
    ReadLines(n, Sort(es), Sort(fs));
  }

  lemma {:induction false} ModesTellKinds(s: Node, t: Node)
    requires Readable(s) && Readable(t) && Mode(s) == Mode(t)
    ensures s.File? == t.File? && s.Link? == t.Link? && s.Dir? == t.Dir?
    ensures s.File? ==> s.exec == t.exec
  {
    assert |LINK_MODE| == |EXEC_MODE| == |FILE_MODE| == 6 && |DIR_MODE| == 5;
    assert LINK_MODE[1] == 50 && EXEC_MODE[1] == 48 && FILE_MODE[1] == 48;
    assert EXEC_MODE[3] == 55 && FILE_MODE[3] == 54;
  }

  /** With a digest of fixed length that does not collide on the objects of the
      two trees, nodes of equal mode and equal id agree at every depth. */
  lemma {:induction false} SameIdSameTrees(hash: Bytes -> Bytes, n: nat, s: Node, t: Node)
    requires Readable(s) && Readable(t) && WellFormed(s) && WellFormed(t)
    requires FixedLength(hash, n) && CollisionFree(hash, Objects(hash, s) + Objects(hash, t))
    requires Mode(s) == Mode(t) && Id(hash, s) == Id(hash, t)
    ensures Same(s, t)
    decreases s
  {
    ModesTellKinds(s, t);
    match s
    case File(_, _, content) => ReadObject(BLOB, content, BLOB, t.content);
    case Link(target) => ReadObject(BLOB, target, BLOB, t.target);
    case Dir(children) =>
      SameIdSameEntries(hash, n, children, t.children);
      var es, fs := EntriesOf(hash, children), EntriesOf(hash, t.children);
      forall i | 0 <= i < |children|
        ensures InRight(children[i], t.children)
      {
        assert es[i] in fs;
        var j :| 0 <= j < |fs| && fs[j] == es[i];
        ChildrenCollisionFree(hash, s, t, i, j);
        SameIdSameTrees(hash, n, children[i].node, t.children[j].node);
        assert SameChild(children[i], t.children[j]);
      }
      forall j | 0 <= j < |t.children|
        ensures InLeft(children, t.children[j])
      {
        assert fs[j] in es;
        var i :| 0 <= i < |es| && fs[j] == es[i];
        ChildrenCollisionFree(hash, s, t, i, j);
        SameIdSameTrees(hash, n, children[i].node, t.children[j].node);
        assert SameChild(children[i], t.children[j]);
      }
  }

  lemma {:induction false} ChildrenCollisionFree(hash: Bytes -> Bytes, s: Node, t: Node, i: nat, j: nat)
    requires Readable(s) && Readable(t) && s.Dir? && t.Dir? && i < |s.children| && j < |t.children|
    requires CollisionFree(hash, Objects(hash, s) + Objects(hash, t))
    ensures CollisionFree(hash, Objects(hash, s.children[i].node) + Objects(hash, t.children[j].node))
  {
    assert Objects(hash, s.children[i].node) <= Objects(hash, s);
    assert Objects(hash, t.children[j].node) <= Objects(hash, t);
  }

  /** Two directories have the same id exactly when they agree at every depth. */
  lemma {:induction false} IdsAgreeExactlyWhenTreesDo(hash: Bytes -> Bytes, n: nat, s: Node, t: Node)
    requires s.Dir? && t.Dir? && Readable(s) && Readable(t) && WellFormed(s) && WellFormed(t)
    requires FixedLength(hash, n) && CollisionFree(hash, Objects(hash, s) + Objects(hash, t))
    ensures Id(hash, s) == Id(hash, t) <==> Same(s, t)
  {
    if Id(hash, s) == Id(hash, t) {
      SameIdSameTrees(hash, n, s, t);
    } else if Same(s, t) {
      SameTreesSameId(hash, s, t);
    }
  }

  lemma {:induction false} SameReflexive(t: Node)
    ensures Same(t, t)
    decreases t
  {
    if t.Dir? {
      forall i | 0 <= i < |t.children|
        ensures SameChild(t.children[i], t.children[i])
      {
        SameReflexive(t.children[i].node);
      }
      assert forall i :: 0 <= i < |t.children| ==> InRight(t.children[i], t.children);
      assert forall j :: 0 <= j < |t.children| ==> InLeft(t.children, t.children[j]);
    }
  }

  /** Listing the children of a directory in another order leaves its id alone. */
  lemma {:induction false} ListingOrderIrrelevant(hash: Bytes -> Bytes, s: Node, t: Node)
    requires s.Dir? && t.Dir? && multiset(s.children) == multiset(t.children)
    requires Readable(s) && Readable(t) && WellFormed(s) && WellFormed(t)
    ensures Id(hash, s) == Id(hash, t)
  {
    forall i | 0 <= i < |s.children|
      ensures InRight(s.children[i], t.children)
    {
      assert s.children[i] in multiset(t.children);
      var j :| 0 <= j < |t.children| && t.children[j] == s.children[i];
      SameReflexive(s.children[i].node);
      assert SameChild(s.children[i], t.children[j]);
    }
    forall j | 0 <= j < |t.children|
      ensures InLeft(s.children, t.children[j])
    {
      assert t.children[j] in multiset(s.children);
      var i :| 0 <= i < |s.children| && s.children[i] == t.children[j];
      SameReflexive(s.children[i].node);
      assert SameChild(s.children[i], t.children[j]);
    }
    assert Same(s, t);
    SameTreesSameId(hash, s, t);
  }

  // The computation

  // The first fault met by the walk.
  function Fault(t: Node): Option<Error>
    decreases t, 0
  {
    match t
    case File(_, size, content) => if size == |content| then None else Some(ChangedWhileReading)
    case Link(_) => None
    case Dir(children) => FaultAmong(children)
    case Special => Some(UnsupportedFileType)
  }

  function FaultAmong(children: seq<Child>): Option<Error>
    decreases children, 1
  {
    if children == [] then None
    else if Fault(children[0].node).Some? then Fault(children[0].node)
    else FaultAmong(children[1..])
  }

  // Reads a file piece by piece into the hasher.
  method FileHash(hash: Bytes -> Bytes, size: nat, content: Bytes) returns (r: Result<Bytes, Error>)
    ensures r == if |content| == size then Success(hash(Object(BLOB, content))) else Failure(ChangedWhileReading)
  {
    var header := Header(BLOB, size) + [NUL];
    var hashed := header;
    var bytesRead := 0;
    while bytesRead < |content|
      invariant 0 <= bytesRead <= |content|
      invariant hashed == header + content[..bytesRead]
    {
      var chunk := content[bytesRead..Min(bytesRead + READ_SIZE, |content|)];
      assert content[..bytesRead] + chunk == content[..bytesRead + |chunk|];
      hashed := hashed + chunk;
      bytesRead := bytesRead + |chunk|;
    }
    assert content[..bytesRead] == content;
    if bytesRead != size {
      return Failure(ChangedWhileReading);
    }
    return Success(hash(hashed));
  }

  method ChildHash(hash: Bytes -> Bytes, t: Node) returns (r: Result<Bytes, Error>)
    ensures r.Success? <==> Readable(t)
    ensures r.Success? ==> r.value == Id(hash, t)
    ensures Fault(t) == if r.Success? then None else Some(r.error)
    decreases t, 0
  {
    match t
    case Link(target) => return Success(hash(Object(BLOB, target)));
    case Dir(children) => r := TreeHash(hash, children);
    case File(_, size, content) => r := FileHash(hash, size, content);
    case Special => return Failure(UnsupportedFileType);
  }

  /** The directory walk computes the id, and fails exactly when some node at some
      depth is of an unsupported type or changed size while being read. */
  method TreeHash(hash: Bytes -> Bytes, children: seq<Child>) returns (r: Result<Bytes, Error>)
    ensures r.Success? <==> AllReadable(children)
    ensures r.Success? ==> r.value == Id(hash, Dir(children))
    ensures FaultAmong(children) == if r.Success? then None else Some(r.error)
    decreases children, 1
  {
    var entries: seq<Entry> := [];
    var i := 0;
    assert children[0..] == children;
    while i < |children|
      invariant 0 <= i <= |children|
      invariant AllReadable(children[..i]) && entries == EntriesOf(hash, children[..i])
      invariant FaultAmong(children[i..]) == FaultAmong(children)
    {
      var child := children[i];
      assert children[i..][0] == child && children[i..][1..] == children[i + 1..];
      var id := ChildHash(hash, child.node);
      if id.Failure? {
        return id;
      }
      EntriesSnoc(hash, children[..i], child);
      assert children[..i + 1] == children[..i] + [child];
      entries := entries + [Entry(Mode(child.node), child.name, id.value)];
      i := i + 1;
    }
    assert children[..i] == children;
    return Success(hash(Object(TREE, Lines(Sort(entries)))));
  }

  lemma {:induction false} EntriesSnoc(hash: Bytes -> Bytes, children: seq<Child>, child: Child)
    requires AllReadable(children) && Readable(child.node)
    ensures AllReadable(children + [child])
    ensures EntriesOf(hash, children + [child]) == EntriesOf(hash, children) + [EntryOf(hash, child)]
  {
    var longer := EntriesOf(hash, children + [child]);
    forall i | 0 <= i < |longer|
      ensures longer[i] == (EntriesOf(hash, children) + [EntryOf(hash, child)])[i]
    {
      assert longer[i] == EntryOf(hash, (children + [child])[i]);
    }
  }
}
