/**
  What a UDF may return and the tables it holds: the leaves of a result of any
  nesting, from left to right.
*/
module UdfOutputs {
  import opened Sequences
  import opened Rebatching

  // Nothing, a table, or an iterable of such results.
  datatype UdfOutput<Row> =
    | Nothing
    | Single(table: Table<Row>)
    | Several(items: seq<UdfOutput<Row>>)

  function OutputTables<Row>(o: UdfOutput<Row>): seq<Table<Row>>
    decreases o, 0
  {
    match o
    case Nothing => []
    case Single(t) => [t]
    case Several(items) => AllOutputTables(items)
  }

  function AllOutputTables<Row>(items: seq<UdfOutput<Row>>): seq<Table<Row>>
    decreases items, 1
  {
    if items == [] then [] else OutputTables(items[0]) + AllOutputTables(items[1..])
  }

  // ----- Leaves by their place ----------------------------------------------

  // A path names an item at each level, from the outside in.
  type Path = seq<nat>

  ghost predicate IsLeaf<Row>(o: UdfOutput<Row>, path: Path)
    decreases |path|
  {
    match o
    case Nothing => false
    case Single(_) => path == []
    case Several(items) => path != [] && path[0] < |items| && IsLeaf(items[path[0]], path[1..])
  }

  ghost function Leaf<Row>(o: UdfOutput<Row>, path: Path): Table<Row>
    requires IsLeaf(o, path)
    decreases |path|
  {
    if o.Single? then o.table else Leaf(o.items[path[0]], path[1..])
  }

  ghost predicate Earlier(p: Path, q: Path)
    decreases |p|
  {
    p != [] && q != [] && (p[0] < q[0] || (p[0] == q[0] && Earlier(p[1..], q[1..])))
  }

  ghost predicate InOrder(ps: seq<Path>) {
    forall i, j :: 0 <= i < j < |ps| ==> Earlier(ps[i], ps[j])
  }

  // The tables are the leaves at the paths, which are all there are, in order.
  ghost predicate Lists<Row>(o: UdfOutput<Row>, ps: seq<Path>, tables: seq<Table<Row>>) {
    && |ps| == |tables| && InOrder(ps)
    && (forall i :: 0 <= i < |ps| ==> IsLeaf(o, ps[i]) && Leaf(o, ps[i]) == tables[i])
    && (forall path :: IsLeaf(o, path) ==> path in ps)
  }

  ghost predicate Holds<Row>(o: UdfOutput<Row>, tables: seq<Table<Row>>) {
    exists ps :: Lists(o, ps, tables)
  }

  // ----- The tables of an output are its leaves in order --------------------

  // The paths within item 0, and the paths within the items after it.
  ghost function Within(ps: seq<Path>): (qs: seq<Path>)
    ensures |qs| == |ps| && forall i :: 0 <= i < |ps| ==> qs[i] == [0] + ps[i]
  {
    seq(|ps|, i requires 0 <= i < |ps| => [0] + ps[i])
  }

  ghost predicate Rooted(ps: seq<Path>) {
    forall i :: 0 <= i < |ps| ==> ps[i] != []
  }

  ghost function After(p: Path): Path
    requires p != []
  {
    [p[0] + 1] + p[1..]
  }

  ghost function AllAfter(ps: seq<Path>): (qs: seq<Path>)
    requires Rooted(ps)
    ensures |qs| == |ps| && forall i :: 0 <= i < |ps| ==> qs[i] == After(ps[i])
  {
    seq(|ps|, i requires 0 <= i < |ps| => After(ps[i]))
  }

  lemma {:induction false} LeafOfFirst<Row>(items: seq<UdfOutput<Row>>, path: Path)
    requires items != []
    ensures IsLeaf(Several(items), [0] + path) <==> IsLeaf(items[0], path)
    ensures IsLeaf(items[0], path) ==> Leaf(Several(items), [0] + path) == Leaf(items[0], path)
  {
    assert ([0] + path)[1..] == path;
  }

  lemma {:induction false} LeafOfRest<Row>(items: seq<UdfOutput<Row>>, path: Path)
    requires items != [] && path != []
    ensures IsLeaf(Several(items), After(path)) <==> IsLeaf(Several(items[1..]), path)
    ensures IsLeaf(Several(items[1..]), path) ==>
              Leaf(Several(items), After(path)) == Leaf(Several(items[1..]), path)
  {
    assert After(path)[1..] == path[1..];
  }

  lemma {:induction false} OrderKept(ps: seq<Path>, rs: seq<Path>)
    requires InOrder(ps) && InOrder(rs) && Rooted(rs)
    ensures InOrder(Within(ps) + AllAfter(rs))
  {
    var all := Within(ps) + AllAfter(rs);
    forall i, j | 0 <= i < j < |all| ensures Earlier(all[i], all[j]) {
      if j < |ps| {
        assert all[i][1..] == ps[i] && all[j][1..] == ps[j] && Earlier(ps[i], ps[j]);
      } else if i >= |ps| {
        var p, q := rs[i - |ps|], rs[j - |ps|];
        assert Earlier(p, q) && After(p)[1..] == p[1..] && After(q)[1..] == q[1..];
      }
    }
  }

  lemma {:induction false} NoLeafMissed<Row>(items: seq<UdfOutput<Row>>, ps: seq<Path>, rs: seq<Path>, path: Path)
    requires items != [] && Rooted(rs) && IsLeaf(Several(items), path)
    requires forall p :: IsLeaf(items[0], p) ==> p in ps
    requires forall p :: IsLeaf(Several(items[1..]), p) ==> p in rs
    ensures path in Within(ps) + AllAfter(rs)
  {
    if path[0] == 0 {
      assert path == [0] + path[1..] && path[1..] in ps;
      var i :| 0 <= i < |ps| && ps[i] == path[1..];
      assert Within(ps)[i] == path;
    } else {
      var p := [path[0] - 1] + path[1..];
      assert After(p) == path;
      LeafOfRest(items, p);
      var i :| 0 <= i < |rs| && rs[i] == p;
      assert AllAfter(rs)[i] == path;
    }
  }

  /** The tables of an output are its leaves at every depth, from left to right. */
  lemma {:induction false} TablesAreLeaves<Row>(o: UdfOutput<Row>) returns (ps: seq<Path>)
    ensures Lists(o, ps, OutputTables(o))
    decreases o, 0
  {
    match o
    case Nothing => ps := [];
    case Single(t) => ps := [[]];
    case Several(items) => ps := AllTablesAreLeaves(items);
  }

  lemma {:induction false} AllTablesAreLeaves<Row>(items: seq<UdfOutput<Row>>) returns (ps: seq<Path>)
    ensures Lists(Several(items), ps, AllOutputTables(items)) && Rooted(ps)
    decreases items, 1
  {
    if items == [] {
      ps := [];
    } else {
      var first := TablesAreLeaves(items[0]);
      var rest := AllTablesAreLeaves(items[1..]);
      ps := Within(first) + AllAfter(rest);
      JoinedLists(items, first, OutputTables(items[0]), rest, AllOutputTables(items[1..]));
    }
  }

  lemma {:induction false} JoinedLists<Row>(items: seq<UdfOutput<Row>>, ps: seq<Path>, ts: seq<Table<Row>>,
                                                  rs: seq<Path>, us: seq<Table<Row>>)
    requires items != [] && Rooted(rs) && Lists(items[0], ps, ts) && Lists(Several(items[1..]), rs, us)
    ensures Lists(Several(items), Within(ps) + AllAfter(rs), ts + us)
  {
    var all := Within(ps) + AllAfter(rs);
    OrderKept(ps, rs);
    forall i | 0 <= i < |all| ensures IsLeaf(Several(items), all[i]) && Leaf(Several(items), all[i]) == (ts + us)[i] {
      if i < |ps| {
        LeafOfFirst(items, ps[i]);
      } else {
        LeafOfRest(items, rs[i - |ps|]);
      }
    }
    forall path | IsLeaf(Several(items), path) ensures path in all {
      NoLeafMissed(items, ps, rs, path);
    }
  }

  // ----- There is one such list ---------------------------------------------

  lemma {:induction false} EarlierOnce(p: Path, q: Path)
    ensures !Earlier(p, p) && !(Earlier(p, q) && Earlier(q, p))
    decreases |p|
  {
    if p != [] {
      EarlierOnce(p[1..], if q == [] then [] else q[1..]);
    }
  }

  lemma {:induction false} SameOrder(ps: seq<Path>, qs: seq<Path>)
    requires InOrder(ps) && InOrder(qs) && forall p :: p in ps <==> p in qs
    ensures ps == qs
    decreases |ps|
  {
    assert (ps != [] ==> ps[0] in ps) && (qs != [] ==> qs[0] in qs);
    if ps != [] {
      assert ps[0] in qs;
      var i :| 0 <= i < |qs| && qs[i] == ps[0];
      assert qs[0] in ps;
      var j :| 0 <= j < |ps| && ps[j] == qs[0];
      EarlierOnce(ps[0], qs[0]);
      assert ps[0] == qs[0];
      forall p ensures p in ps[1..] <==> p in qs[1..] {
        RestMembers(ps, p);
        RestMembers(qs, p);
      }
      SameOrder(ps[1..], qs[1..]);
      assert ps == [ps[0]] + ps[1..] && qs == [qs[0]] + qs[1..];
    }
  }

  lemma {:induction false} RestMembers(ps: seq<Path>, p: Path)
    requires ps != [] && InOrder(ps)
    ensures p in ps[1..] <==> p in ps && p != ps[0]
  {
    EarlierOnce(ps[0], ps[0]);
    if p in ps[1..] {
      var i :| 0 <= i < |ps[1..]| && ps[1..][i] == p;
      assert Earlier(ps[0], ps[i + 1]);
    }
    if p in ps && p != ps[0] {
      var i :| 0 <= i < |ps| && ps[i] == p;
      assert ps[1..][i - 1] == p;
    }
  }

  lemma {:induction false} ListsOnce<Row>(o: UdfOutput<Row>, ps: seq<Path>, ts: seq<Table<Row>>, qs: seq<Path>,
                                                us: seq<Table<Row>>)
    requires Lists(o, ps, ts) && Lists(o, qs, us)
    ensures ts == us
  {
    forall p ensures p in ps <==> p in qs {
      if p in ps {
        var i :| 0 <= i < |ps| && ps[i] == p;
        assert IsLeaf(o, p);
      }
      if p in qs {
        var i :| 0 <= i < |qs| && qs[i] == p;
        assert IsLeaf(o, p);
      }
    }
    SameOrder(ps, qs);
  }

  /** An output holds exactly one list of tables, the one that is read off it. */
  lemma {:induction false} HoldsExactly<Row>(o: UdfOutput<Row>, tables: seq<Table<Row>>)
    ensures Holds(o, tables) <==> tables == OutputTables(o)
  {
    var ps := TablesAreLeaves(o);
    if Holds(o, tables) {
      var qs :| Lists(o, qs, tables);
      ListsOnce(o, ps, OutputTables(o), qs, tables);
    }
  }
}
