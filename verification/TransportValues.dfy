/**
  The budgeted copy of exception arguments and state that crosses a process
  boundary.  Values live in a heap of containers that may be shared or cyclic;
  the copy is a finite tree.
*/
module TransportValues {
  import opened Wrappers
  import opened Sequences

  const MAX_DEPTH := 16
  const MAX_ITEMS := 1024
  const MAX_BYTES := 64 * 1024

  // Text is a sequence of code points, surrogates included.  A float is its bits
  // and a tag; tags tell apart the NaN keys of one dict, which are equal to
  // nothing, not even to a NaN of the same bits.
  datatype Atom =
    | Null
    | Bool(b: bool)
    | Int(n: int)
    | Float(bits: nat, tag: nat)
    | Text(chars: seq<nat>)
    | Bytes(bytes: seq<nat>)

  datatype Kind = List | Tuple | Dict

  type Ref = nat

  datatype Value = Plain(a: Atom) | Object(ref: Ref)

  // The children of a dict are its keys and values in turn.
  datatype Container = Container(kind: Kind, children: seq<Value>) | Unsupported

  type Heap = map<Ref, Container>

  datatype Tree = Leaf(a: Atom) | Node(kind: Kind, children: seq<Tree>)

  datatype Budget = Budget(items: nat, bytes: nat)

  const FULL_BUDGET := Budget(MAX_ITEMS, MAX_BYTES)

  datatype Error = ItemLimit | ByteLimit | DepthLimit | UnsupportedValue | Cycle

  // ----- Sizes --------------------------------------------------------------

  function BitLength(n: nat): nat {
    if n == 0 then 0 else 1 + BitLength(n / 2)
  }

  function Utf8Length(chars: seq<nat>): (n: nat)
    ensures n >= |chars|
  {
    if chars == [] then 0
    else
      (if chars[0] < 0x80 then 1 else if chars[0] < 0x800 then 2 else if chars[0] < 0x10000 then 3 else 4) +
      Utf8Length(chars[1..])
  }

  function AtomSize(a: Atom): nat {
    match a
    case Null => 1
    case Bool(_) => 1
    case Int(n) => Max(1, (BitLength(if n < 0 then -n else n) + 7) / 8)
    case Float(_, _) => 8
    case Text(chars) => Utf8Length(chars)
    case Bytes(bytes) => |bytes|
  }

  // ----- Rebuilding a dict --------------------------------------------------

  // Insertion of one key and value: an equal key keeps its place.
  function Inserted(entries: seq<Tree>, key: Tree, item: Tree): seq<Tree> {
    if |entries| < 2 then entries + [key, item]
    else if entries[0] == key then [key, item] + entries[2..]
    else entries[..2] + Inserted(entries[2..], key, item)
  }

  function RebuiltFrom(entries: seq<Tree>, children: seq<Tree>): seq<Tree>
    decreases |children|
  {
    if |children| < 2 then entries + children
    else RebuiltFrom(Inserted(entries, children[0], children[1]), children[2..])
  }

  function Build(kind: Kind, children: seq<Tree>): Tree {
    Node(kind, if kind == Dict then RebuiltFrom([], children) else children)
  }

  // ----- The copy -----------------------------------------------------------

  datatype Copied = Copied(tree: Tree, budget: Budget)
  datatype CopiedAll = CopiedAll(trees: seq<Tree>, budget: Budget)

  function Charge(a: Atom, b: Budget): Result<Budget, Error> {
    if a.Text? && |a.chars| > b.bytes then Failure(ByteLimit)
    else if AtomSize(a) > b.bytes then Failure(ByteLimit)
    else Success(b.(bytes := b.bytes - AtomSize(a)))
  }

  function Copy(h: Heap, v: Value, depth: nat, seen: set<Ref>, budget: Budget): Result<Copied, Error>
    requires depth <= MAX_DEPTH
    decreases MAX_DEPTH - depth, 0
  {
    if budget.items <= 0 then Failure(ItemLimit)
    else
      var b := budget.(items := budget.items - 1);
      match v
      case Plain(a) =>
        (match Charge(a, b)
         case Failure(e) => Failure(e)
         case Success(b') => Success(Copied(Leaf(a), b')))
      case Object(r) =>
        if depth >= MAX_DEPTH then Failure(DepthLimit)
        else if r !in h || h[r].Unsupported? then Failure(UnsupportedValue)
        else if r in seen then Failure(Cycle)
        else
          match CopyAll(h, h[r].children, depth + 1, seen + {r}, b)
          case Failure(e) => Failure(e)
          case Success(c) => Success(Copied(Build(h[r].kind, c.trees), c.budget))
  }

  function CopyAll(h: Heap, vs: seq<Value>, depth: nat, seen: set<Ref>, budget: Budget): Result<CopiedAll, Error>
    requires depth <= MAX_DEPTH
    decreases MAX_DEPTH - depth, 1 + |vs|
  {
    if vs == [] then Success(CopiedAll([], budget))
    else
      match Copy(h, vs[0], depth, seen, budget)
      case Failure(e) => Failure(e)
      case Success(c) =>
        match CopyAll(h, vs[1..], depth, seen, c.budget)
        case Failure(e) => Failure(e)
        case Success(rest) => Success(CopiedAll([c.tree] + rest.trees, rest.budget))
  }

  // ----- What a value stands for --------------------------------------------

  // Following references from v unfolds to the finite tree t.
  ghost predicate Unfolds(h: Heap, v: Value, t: Tree)
    decreases t, 0
  {
    match t
    case Leaf(a) => v == Plain(a)
    case Node(kind, children) =>
      && v.Object? && v.ref in h && h[v.ref].Container? && h[v.ref].kind == kind
      && UnfoldAll(h, h[v.ref].children, children)
  }

  ghost predicate UnfoldAll(h: Heap, vs: seq<Value>, ts: seq<Tree>)
    decreases ts, 1
  {
    |vs| == |ts| && (ts == [] || (Unfolds(h, vs[0], ts[0]) && UnfoldAll(h, vs[1..], ts[1..])))
  }

  ghost function Size(t: Tree): nat
    decreases t, 0
  {
    match t
    case Leaf(_) => 1
    case Node(_, children) => 1 + SizeAll(children)
  }

  ghost function SizeAll(ts: seq<Tree>): nat
    decreases ts, 1
  {
    if ts == [] then 0 else Size(ts[0]) + SizeAll(ts[1..])
  }

  lemma {:induction false} UnfoldingUnique(h: Heap, v: Value, t: Tree, t': Tree)
    requires Unfolds(h, v, t) && Unfolds(h, v, t')
    ensures t == t'
    decreases t, 0
  {
    match t
    case Leaf(_) =>
    case Node(kind, children) => UnfoldingsUnique(h, h[v.ref].children, children, t'.children);
  }

  lemma {:induction false} UnfoldingsUnique(h: Heap, vs: seq<Value>, ts: seq<Tree>, ts': seq<Tree>)
    requires UnfoldAll(h, vs, ts) && UnfoldAll(h, vs, ts')
    ensures ts == ts'
    decreases ts, 1
  {
    if ts != [] {
      UnfoldingUnique(h, vs[0], ts[0], ts'[0]);
      UnfoldingsUnique(h, vs[1..], ts[1..], ts'[1..]);
      assert ts == [ts[0]] + ts[1..] && ts' == [ts'[0]] + ts'[1..];
    }
  }

  // ----- The cost of a tree -------------------------------------------------

  // What copying charges, told from the tree alone.
  ghost function Cost(t: Tree, depth: nat, budget: Budget): Result<Budget, Error>
    requires depth <= MAX_DEPTH
    decreases t, 0
  {
    if budget.items <= 0 then Failure(ItemLimit)
    else
      var b := budget.(items := budget.items - 1);
      match t
      case Leaf(a) => Charge(a, b)
      case Node(_, children) => if depth >= MAX_DEPTH then Failure(DepthLimit) else CostAll(children, depth + 1, b)
  }

  ghost function CostAll(ts: seq<Tree>, depth: nat, budget: Budget): Result<Budget, Error>
    requires depth <= MAX_DEPTH
    decreases ts, 1
  {
    if ts == [] then Success(budget)
    else
      match Cost(ts[0], depth, budget)
      case Failure(e) => Failure(e)
      case Success(b) => CostAll(ts[1..], depth, b)
  }

  ghost function LeafBytes(t: Tree): nat
    decreases t, 0
  {
    match t
    case Leaf(a) => AtomSize(a)
    case Node(_, children) => LeafBytesAll(children)
  }

  ghost function LeafBytesAll(ts: seq<Tree>): nat
    decreases ts, 1
  {
    if ts == [] then 0 else LeafBytes(ts[0]) + LeafBytesAll(ts[1..])
  }

  // The number of containers around the deepest one.
  ghost function Height(t: Tree): nat
    decreases t, 0
  {
    match t
    case Leaf(_) => 0
    case Node(_, children) => 1 + HeightAll(children)
  }

  ghost function HeightAll(ts: seq<Tree>): nat
    decreases ts, 1
  {
    if ts == [] then 0 else Max(Height(ts[0]), HeightAll(ts[1..]))
  }

  // Within the limits: items, bytes and nesting.
  ghost predicate Fits(t: Tree, depth: nat, budget: Budget) {
    Size(t) <= budget.items && LeafBytes(t) <= budget.bytes && depth + Height(t) <= MAX_DEPTH
  }

  /** The walk charges one item per node and the bytes of the leaves, and succeeds
      exactly when the tree is within the limits. */
  lemma {:induction false} CostIs(t: Tree, depth: nat, budget: Budget)
    requires depth <= MAX_DEPTH
    ensures Cost(t, depth, budget).Success? <==> Fits(t, depth, budget)
    ensures Fits(t, depth, budget) ==>
              Cost(t, depth, budget) == Success(Budget(budget.items - Size(t), budget.bytes - LeafBytes(t)))
    decreases t, 0
  {
    match t
    case Leaf(a) => TextFits(a);
    case Node(_, children) =>
      if budget.items > 0 && depth < MAX_DEPTH {
        CostAllIs(children, depth + 1, budget.(items := budget.items - 1));
      }
  }

  lemma {:induction false} CostAllIs(ts: seq<Tree>, depth: nat, budget: Budget)
    requires depth <= MAX_DEPTH
    ensures CostAll(ts, depth, budget).Success? <==>
            SizeAll(ts) <= budget.items && LeafBytesAll(ts) <= budget.bytes && depth + HeightAll(ts) <= MAX_DEPTH
    ensures CostAll(ts, depth, budget).Success? ==>
              CostAll(ts, depth, budget).value == Budget(budget.items - SizeAll(ts), budget.bytes - LeafBytesAll(ts))
    decreases ts, 1
  {
    if ts != [] {
      CostIs(ts[0], depth, budget);
      if Fits(ts[0], depth, budget) {
        CostAllIs(ts[1..], depth, Budget(budget.items - Size(ts[0]), budget.bytes - LeafBytes(ts[0])));
      }
    }
  }

  // The early test on the length of a text refuses nothing that would fit.
  lemma {:induction false} TextFits(a: Atom)
    ensures a.Text? ==> |a.chars| <= AtomSize(a)
  {
  }

  // ----- Dict keys ----------------------------------------------------------

  ghost predicate NotKey(entries: seq<Tree>, key: Tree)
    decreases |entries|
  {
    |entries| < 2 || (entries[0] != key && NotKey(entries[2..], key))
  }

  ghost predicate NoneAreKeys(entries: seq<Tree>, children: seq<Tree>)
    decreases |children|
  {
    |children| < 2 || (NotKey(entries, children[0]) && NoneAreKeys(entries, children[2..]))
  }

  // Keys and values in turn, no key twice.
  ghost predicate KeysApart(children: seq<Tree>)
    decreases |children|
  {
    children == [] || (|children| >= 2 && NotKey(children[2..], children[0]) && KeysApart(children[2..]))
  }

  // No two keys of a dict are equal as trees, as in every Python dict.
  ghost predicate DictsOk(h: Heap) {
    forall r, ts {:trigger UnfoldAll(h, h[r].children, ts)} ::
      r in h && h[r].Container? && h[r].kind == Dict && UnfoldAll(h, h[r].children, ts) ==> KeysApart(ts)
  }

  lemma {:induction false} InsertedLast(entries: seq<Tree>, key: Tree, item: Tree)
    requires |entries| % 2 == 0 && NotKey(entries, key)
    ensures Inserted(entries, key, item) == entries + [key, item]
    decreases |entries|
  {
    if |entries| >= 2 {
      InsertedLast(entries[2..], key, item);
      assert entries == entries[..2] + entries[2..];
      Assoc(entries[..2], entries[2..], [key, item]);
    }
  }

  lemma {:induction false} NotKeySnoc(entries: seq<Tree>, key: Tree, item: Tree, other: Tree)
    requires |entries| % 2 == 0 && NotKey(entries, other) && key != other
    ensures NotKey(entries + [key, item], other)
    decreases |entries|
  {
    if |entries| >= 2 {
      assert (entries + [key, item])[2..] == entries[2..] + [key, item];
      NotKeySnoc(entries[2..], key, item, other);
    } else {
      assert (entries + [key, item])[2..] == [];
    }
  }

  lemma {:induction false} NoneAreKeysSnoc(entries: seq<Tree>, key: Tree, item: Tree, children: seq<Tree>)
    requires |entries| % 2 == 0 && NoneAreKeys(entries, children) && NotKey(children, key)
    ensures NoneAreKeys(entries + [key, item], children)
    decreases |children|
  {
    if |children| >= 2 {
      NotKeySnoc(entries, key, item, children[0]);
      NoneAreKeysSnoc(entries, key, item, children[2..]);
    }
  }

  lemma {:induction false} RebuiltWhole(entries: seq<Tree>, children: seq<Tree>)
    requires |entries| % 2 == 0 && KeysApart(children) && NoneAreKeys(entries, children)
    ensures RebuiltFrom(entries, children) == entries + children
    decreases |children|
  {
    if |children| >= 2 {
      var key, item := children[0], children[1];
      InsertedLast(entries, key, item);
      NoneAreKeysSnoc(entries, key, item, children[2..]);
      RebuiltWhole(entries + [key, item], children[2..]);
      Assoc(entries, [key, item], children[2..]);
      assert children == [key, item] + children[2..];
    }
  }

  lemma {:induction false} NothingIsKey(children: seq<Tree>)
    ensures NoneAreKeys([], children)
    decreases |children|
  {
    if |children| >= 2 {
      NothingIsKey(children[2..]);
    }
  }

  // Rebuilding a dict with distinct keys changes nothing.
  lemma {:induction false} BuildIsNode(kind: Kind, children: seq<Tree>)
    requires kind == Dict ==> KeysApart(children)
    ensures Build(kind, children) == Node(kind, children)
  {
    if kind == Dict {
      NothingIsKey(children);
      RebuiltWhole([], children);
      assert [] + children == children;
    }
  }

  // ----- The copy is faithful -----------------------------------------------

  /** A successful copy is the value it was taken from. */
  lemma {:induction false} CopyIsFaithful(h: Heap, v: Value, depth: nat, seen: set<Ref>, budget: Budget)
    requires DictsOk(h) && depth <= MAX_DEPTH
    ensures Copy(h, v, depth, seen, budget).Success? ==> Unfolds(h, v, Copy(h, v, depth, seen, budget).value.tree)
    decreases MAX_DEPTH - depth, 0
  {
    if Copy(h, v, depth, seen, budget).Success? && v.Object? {
      var r, b := v.ref, budget.(items := budget.items - 1);
      CopyAllIsFaithful(h, h[r].children, depth + 1, seen + {r}, b);
      BuildIsNode(h[r].kind, CopyAll(h, h[r].children, depth + 1, seen + {r}, b).value.trees);
    }
  }

  lemma {:induction false} CopyAllIsFaithful(h: Heap, vs: seq<Value>, depth: nat, seen: set<Ref>, budget: Budget)
    requires DictsOk(h) && depth <= MAX_DEPTH
    ensures CopyAll(h, vs, depth, seen, budget).Success? ==>
              UnfoldAll(h, vs, CopyAll(h, vs, depth, seen, budget).value.trees)
    decreases MAX_DEPTH - depth, 1 + |vs|
  {
    if vs != [] && CopyAll(h, vs, depth, seen, budget).Success? {
      var c := Copy(h, vs[0], depth, seen, budget).value;
      var rest := CopyAll(h, vs[1..], depth, seen, c.budget).value;
      CopyIsFaithful(h, vs[0], depth, seen, budget);
      CopyAllIsFaithful(h, vs[1..], depth, seen, c.budget);
      assert ([c.tree] + rest.trees)[1..] == rest.trees;
    }
  }

  // No container in progress is as small as n: none can occur below.
  ghost predicate Above(h: Heap, seen: set<Ref>, n: nat) {
    forall r, t {:trigger Unfolds(h, Object(r), t)} :: r in seen && Unfolds(h, Object(r), t) ==> Size(t) > n
  }

  ghost function WithTree(t: Tree, r: Result<Budget, Error>): Result<Copied, Error> {
    if r.Failure? then Failure(r.error) else Success(Copied(t, r.value))
  }

  ghost function WithTrees(ts: seq<Tree>, r: Result<Budget, Error>): Result<CopiedAll, Error> {
    if r.Failure? then Failure(r.error) else Success(CopiedAll(ts, r.value))
  }

  /** A value that unfolds is never taken for a cycle, and what copying it does
      depends on its tree alone. */
  lemma {:induction false} CopyOfUnfolding(h: Heap, v: Value, t: Tree, depth: nat, seen: set<Ref>, budget: Budget)
    requires DictsOk(h) && Unfolds(h, v, t) && depth <= MAX_DEPTH && Above(h, seen, Size(t))
    ensures Copy(h, v, depth, seen, budget) == WithTree(t, Cost(t, depth, budget))
    decreases t, 0
  {
    if t.Node? && budget.items > 0 && depth < MAX_DEPTH {
      var r := v.ref;
      assert Unfolds(h, Object(r), t);
      AboveWithParent(h, seen, r, t);
      CopyAllOfUnfolding(h, h[r].children, t.children, depth + 1, seen + {r}, budget.(items := budget.items - 1));
      BuildIsNode(t.kind, t.children);
    }
  }

  lemma {:induction false} CopyAllOfUnfolding(h: Heap, vs: seq<Value>, ts: seq<Tree>, depth: nat, seen: set<Ref>,
                                              budget: Budget)
    requires DictsOk(h) && UnfoldAll(h, vs, ts) && depth <= MAX_DEPTH && Above(h, seen, SizeAll(ts))
    ensures CopyAll(h, vs, depth, seen, budget) == WithTrees(ts, CostAll(ts, depth, budget))
    decreases ts, 1
  {
    if ts != [] {
      CopyOfUnfolding(h, vs[0], ts[0], depth, seen, budget);
      var c := Cost(ts[0], depth, budget);
      if c.Success? {
        CopyAllOfUnfolding(h, vs[1..], ts[1..], depth, seen, c.value);
        assert ts == [ts[0]] + ts[1..];
      }
    }
  }

  lemma {:induction false} AboveWithParent(h: Heap, seen: set<Ref>, r: Ref, t: Tree)
    requires t.Node? && Unfolds(h, Object(r), t) && Above(h, seen, Size(t))
    ensures Above(h, seen + {r}, SizeAll(t.children))
  {
    forall q, u | q in seen + {r} && Unfolds(h, Object(q), u) ensures Size(u) > SizeAll(t.children) {
      if q == r {
        UnfoldingUnique(h, Object(r), t, u);
      }
    }
  }

  /** Copying succeeds exactly for values that unfold to a tree within the
      limits; cyclic values are among those refused. */
  lemma {:induction false} CopySucceedsExactlyWhen(h: Heap, v: Value, budget: Budget)
    requires DictsOk(h)
    ensures Copy(h, v, 0, {}, budget).Success? <==> exists t :: Unfolds(h, v, t) && Fits(t, 0, budget)
  {
    CopyIsFaithful(h, v, 0, {}, budget);
    if Copy(h, v, 0, {}, budget).Success? {
      var t := Copy(h, v, 0, {}, budget).value.tree;
      CopyOfUnfolding(h, v, t, 0, {}, budget);
      CostIs(t, 0, budget);
      assert Unfolds(h, v, t) && Fits(t, 0, budget);
    }
    if t :| Unfolds(h, v, t) && Fits(t, 0, budget) {
      CostIs(t, 0, budget);
      CopyOfUnfolding(h, v, t, 0, {}, budget);
    }
  }

  // A value that unfolds to a tree is copied exactly when the tree fits.
  lemma {:induction false} CopyOfTree(h: Heap, v: Value, t: Tree, budget: Budget)
    requires DictsOk(h) && Unfolds(h, v, t)
    ensures Copy(h, v, 0, {}, budget).Success? <==> Fits(t, 0, budget)
    ensures Fits(t, 0, budget) ==>
              Copy(h, v, 0, {}, budget).value == Copied(t, Budget(budget.items - Size(t), budget.bytes - LeafBytes(t)))
  {
    CostIs(t, 0, budget);
    CopyOfUnfolding(h, v, t, 0, {}, budget);
  }

  /** Copying a copy, on whatever heap it has been received, gives the same tree
      at the same cost. */
  lemma {:induction false} CopyOfCopy(h: Heap, v: Value, h': Heap, v': Value, budget: Budget)
    requires DictsOk(h) && DictsOk(h') && Copy(h, v, 0, {}, budget).Success?
    requires Unfolds(h', v', Copy(h, v, 0, {}, budget).value.tree)
    ensures Copy(h', v', 0, {}, budget) == Copy(h, v, 0, {}, budget)
  {
    var t := Copy(h, v, 0, {}, budget).value.tree;
    CopyIsFaithful(h, v, 0, {}, budget);
    CopyOfUnfolding(h, v, t, 0, {}, budget);
    CopyOfUnfolding(h', v', t, 0, {}, budget);
  }

  // ----- The copy with its shared set and budget ----------------------------

  class CopyContext {
    var seen: set<Ref>
    var budget: Budget

    constructor (budget: Budget)
      ensures this.seen == {} && this.budget == budget
    {
      this.seen, this.budget := {}, budget;
    }
  }

  // The set of containers in progress is restored on every way out.
  method CopyTransportValue(h: Heap, v: Value, depth: nat, ctx: CopyContext) returns (r: Result<Tree, Error>)
    requires depth <= MAX_DEPTH
    modifies ctx
    ensures ctx.seen == old(ctx.seen)
    ensures var c := Copy(h, v, depth, old(ctx.seen), old(ctx.budget));
            if c.Success? then r == Success(c.value.tree) && ctx.budget == c.value.budget else r == Failure(c.error)
    decreases MAX_DEPTH - depth, 0
  {
    if ctx.budget.items <= 0 {
      return Failure(ItemLimit);
    }
    ctx.budget := ctx.budget.(items := ctx.budget.items - 1);
    if v.Plain? {
      var charged := Charge(v.a, ctx.budget);
      if charged.Failure? {
        return Failure(charged.error);
      }
      ctx.budget := charged.value;
      return Success(Leaf(v.a));
    }
    if depth >= MAX_DEPTH {
      return Failure(DepthLimit);
    }
    if v.ref !in h || h[v.ref].Unsupported? {
      return Failure(UnsupportedValue);
    }
    if v.ref in ctx.seen {
      return Failure(Cycle);
    }
    ctx.seen := ctx.seen + {v.ref};
    var children := CopyChildren(h, h[v.ref].children, depth + 1, ctx);
    ctx.seen := ctx.seen - {v.ref};
    if children.Failure? {
      return Failure(children.error);
    }
    return Success(Build(h[v.ref].kind, children.value));
  }

  method CopyChildren(h: Heap, vs: seq<Value>, depth: nat, ctx: CopyContext) returns (r: Result<seq<Tree>, Error>)
    requires depth <= MAX_DEPTH
    modifies ctx
    ensures ctx.seen == old(ctx.seen)
    ensures var c := CopyAll(h, vs, depth, old(ctx.seen), old(ctx.budget));
            if c.Success? then r == Success(c.value.trees) && ctx.budget == c.value.budget else r == Failure(c.error)
    decreases MAX_DEPTH - depth, 1
  {
    var trees: seq<Tree> := [];
    ghost var goal := CopyAll(h, vs, depth, ctx.seen, ctx.budget);
    assert vs[0..] == vs;
    AfterCopiesEnds(goal, []);
    var i := 0;
    while i < |vs|
      invariant 0 <= i <= |vs| && ctx.seen == old(ctx.seen)
      invariant AfterCopies(trees, CopyAll(h, vs[i..], depth, ctx.seen, ctx.budget)) == goal
    {
      CopyAllFrom(h, vs, i, depth, ctx.seen, ctx.budget, trees);
      var c := CopyTransportValue(h, vs[i], depth, ctx);
      if c.Failure? {
        return Failure(c.error);
      }
      trees := trees + [c.value];
      i := i + 1;
    }
    AfterCopiesEnds(goal, trees);
    r := Success(trees);
  }

  ghost function AfterCopies(done: seq<Tree>, r: Result<CopiedAll, Error>): Result<CopiedAll, Error> {
    if r.Failure? then r else Success(CopiedAll(done + r.value.trees, r.value.budget))
  }

  lemma {:induction false} AfterCopiesEnds(r: Result<CopiedAll, Error>, done: seq<Tree>)
    ensures AfterCopies([], r) == r
    ensures forall b :: AfterCopies(done, Success(CopiedAll([], b))) == Success(CopiedAll(done, b))
  {
    assert done + [] == done;
    if r.Success? {
      assert [] + r.value.trees == r.value.trees;
    }
  }

  lemma {:induction false} CopyAllFrom(h: Heap, vs: seq<Value>, i: nat, depth: nat, seen: set<Ref>, budget: Budget,
                                       done: seq<Tree>)
    requires i < |vs| && depth <= MAX_DEPTH
    ensures AfterCopies(done, CopyAll(h, vs[i..], depth, seen, budget)) ==
            match Copy(h, vs[i], depth, seen, budget)
            case Failure(e) => Failure(e)
            case Success(c) => AfterCopies(done + [c.tree], CopyAll(h, vs[i + 1..], depth, seen, c.budget))
  {
    assert vs[i..][0] == vs[i] && vs[i..][1..] == vs[i + 1..];
    var c := Copy(h, vs[i], depth, seen, budget);
    if c.Success? {
      var rest := CopyAll(h, vs[i + 1..], depth, seen, c.value.budget);
      if rest.Success? {
        Assoc(done, [c.value.tree], rest.value.trees);
      }
    }
  }
}
