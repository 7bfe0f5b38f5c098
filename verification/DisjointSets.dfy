/**
  Union-find over integer ids with path compression and smallest-id roots,
  proved to compute the connected components of the graph of united pairs.
*/
module DisjointSets {

  // ----- Connectivity -------------------------------------------------------

  type Edges = set<(int, int)>

  ghost predicate Linked(edges: Edges, u: int, v: int) {
    (u, v) in edges || (v, u) in edges
  }

  ghost predicate Path(edges: Edges, p: seq<int>) {
    |p| > 0 && forall i :: 0 <= i < |p| - 1 ==> Linked(edges, p[i], p[i + 1])
  }

  ghost predicate PathBetween(edges: Edges, p: seq<int>, u: int, v: int) {
    Path(edges, p) && p[0] == u && p[|p| - 1] == v
  }

  ghost predicate Connected(edges: Edges, u: int, v: int) {
    exists p :: PathBetween(edges, p, u, v)
  }

  lemma {:induction false} ConnectedSelf(edges: Edges, u: int)
    ensures Connected(edges, u, u)
  {
    assert PathBetween(edges, [u], u, u);
  }

  lemma {:induction false} LinkedConnected(edges: Edges, u: int, v: int)
    requires Linked(edges, u, v)
    ensures Connected(edges, u, v)
  {
    assert PathBetween(edges, [u, v], u, v);
  }

  lemma {:induction false} ConnectedTransitive(edges: Edges, u: int, v: int, w: int)
    requires Connected(edges, u, v) && Connected(edges, v, w)
    ensures Connected(edges, u, w)
  {
    var p :| PathBetween(edges, p, u, v);
    var q :| PathBetween(edges, q, v, w);
    var r := p + q[1..];
    forall i | 0 <= i < |r| - 1 ensures Linked(edges, r[i], r[i + 1]) {
      if i >= |p| - 1 {
        assert r[i] == q[i - |p| + 1] && r[i + 1] == q[i - |p| + 2];
      }
    }
    assert PathBetween(edges, r, u, w);
  }

  lemma {:induction false} ReversedPath(edges: Edges, p: seq<int>, u: int, v: int)
    requires PathBetween(edges, p, u, v)
    ensures Connected(edges, v, u)
    decreases |p|
  {
    if |p| == 1 {
      ConnectedSelf(edges, u);
    } else {
      assert PathBetween(edges, p[1..], p[1], v);
      ReversedPath(edges, p[1..], p[1], v);
      LinkedConnected(edges, p[1], u);
      ConnectedTransitive(edges, v, p[1], u);
    }
  }

  lemma {:induction false} ConnectedSymmetric(edges: Edges, u: int, v: int)
    requires Connected(edges, u, v)
    ensures Connected(edges, v, u)
  {
    var p :| PathBetween(edges, p, u, v);
    ReversedPath(edges, p, u, v);
  }

  // If every edge of one graph joins connected nodes of another, so does
  // every path.
  lemma {:induction false} PathConnected(edges: Edges, edges': Edges, p: seq<int>, u: int, v: int)
    requires forall a, b :: (a, b) in edges ==> Connected(edges', a, b)
    requires PathBetween(edges, p, u, v)
    ensures Connected(edges', u, v)
    decreases |p|
  {
    if |p| == 1 {
      ConnectedSelf(edges', u);
    } else {
      var w := p[1];
      assert Linked(edges, p[0], p[1]);
      if (w, u) in edges {
        ConnectedSymmetric(edges', w, u);
      }
      assert PathBetween(edges, p[1..], w, v);
      PathConnected(edges, edges', p[1..], w, v);
      ConnectedTransitive(edges', u, w, v);
    }
  }

  lemma {:induction false} ConnectedWithin(edges: Edges, edges': Edges, u: int, v: int)
    requires forall a, b :: (a, b) in edges ==> Connected(edges', a, b)
    requires Connected(edges, u, v)
    ensures Connected(edges', u, v)
  {
    var p :| PathBetween(edges, p, u, v);
    PathConnected(edges, edges', p, u, v);
  }

  lemma {:induction false} ConnectedMonotone(edges: Edges, edges': Edges, u: int, v: int)
    requires edges <= edges' && Connected(edges, u, v)
    ensures Connected(edges', u, v)
  {
    var p :| PathBetween(edges, p, u, v);
    assert PathBetween(edges', p, u, v);
  }

  // ----- Forests with decreasing parents ------------------------------------

  type Parents = map<int, int>

  ghost function UpTo(parent: Parents, n: int): set<int> {
    set m | m in parent && m <= n
  }

  // A parent is a smaller node or the node itself; the representative is the
  // root that the parent chain ends in.
  ghost predicate NodeOk(parent: Parents, rep: map<int, int>, n: int) {
    && n in parent && n in rep
    && parent[n] in parent && parent[n] in rep && parent[n] <= n
    && rep[n] in parent && rep[n] <= n && parent[rep[n]] == rep[n]
    && rep[n] == rep[parent[n]]
    && (parent[n] == n ==> rep[n] == n)
  }

  ghost predicate Forest(parent: Parents, rep: map<int, int>) {
    && parent.Keys == rep.Keys
    && forall n {:trigger NodeOk(parent, rep, n)} :: n in rep ==> NodeOk(parent, rep, n)
  }

  // The node in which the parent chain of n ends.
  ghost function RootOf(parent: Parents, n: int): int
    decreases UpTo(parent, n)
  {
    if n in parent && parent[n] < n then
      assert n in UpTo(parent, n) && n !in UpTo(parent, parent[n]);
      RootOf(parent, parent[n])
    else n
  }

  /** In a forest the representatives are the ends of the parent chains, so the
      parents alone determine them. */
  lemma {:induction false} RepIsRoot(parent: Parents, rep: map<int, int>, n: int)
    requires Forest(parent, rep) && n in rep
    ensures rep[n] == RootOf(parent, n)
    decreases UpTo(parent, n)
  {
    assert NodeOk(parent, rep, n);
    if parent[n] != n {
      assert n in UpTo(parent, n) && n !in UpTo(parent, parent[n]);
      RepIsRoot(parent, rep, parent[n]);
    }
  }

  /** Pointing a node straight at its root changes no representative. */
  lemma {:induction false} CompressionKeepsReps(parent: Parents, rep: map<int, int>, node: int)
    requires Forest(parent, rep) && node in rep
    ensures Forest(parent[node := rep[node]], rep)
  {
    var parent' := parent[node := rep[node]];
    forall n | n in rep ensures NodeOk(parent', rep, n) {
      assert NodeOk(parent, rep, n) && NodeOk(parent, rep, rep[n]);
    }
  }

  ghost function Merged(rep: map<int, int>, low: int, high: int): map<int, int> {
    map n | n in rep :: if rep[n] == high then low else rep[n]
  }

  /** Hanging one root below a smaller one merges exactly their two trees. */
  lemma {:induction false} HangingMerges(parent: Parents, rep: map<int, int>, low: int, high: int)
    requires Forest(parent, rep) && low in rep && high in rep && rep[low] == low < high == rep[high]
    ensures Forest(parent[high := low], Merged(rep, low, high))
  {
    var parent', rep' := parent[high := low], Merged(rep, low, high);
    assert NodeOk(parent, rep, low) && NodeOk(parent, rep, high);
    forall n | n in rep ensures NodeOk(parent', rep', n) {
      assert NodeOk(parent, rep, n) && NodeOk(parent, rep, rep[n]);
    }
  }

  // ----- Representatives as components --------------------------------------

  ghost predicate WithinNodes(edges: Edges, nodes: set<int>) {
    forall u, v :: (u, v) in edges ==> u in nodes && v in nodes
  }

  ghost predicate RepsAreComponents(rep: map<int, int>, edges: Edges) {
    && WithinNodes(edges, rep.Keys)
    && forall u, v :: u in rep && v in rep ==> (rep[u] == rep[v] <==> Connected(edges, u, v))
  }

  lemma {:induction false} PathKeepsRep(rep: map<int, int>, edges: Edges, p: seq<int>, u: int, v: int)
    requires WithinNodes(edges, rep.Keys) && u in rep
    requires forall a, b :: (a, b) in edges ==> rep[a] == rep[b]
    requires PathBetween(edges, p, u, v)
    ensures v in rep && rep[u] == rep[v]
    decreases |p|
  {
    if |p| > 1 {
      assert Linked(edges, p[0], p[1]);
      assert PathBetween(edges, p[1..], p[1], v);
      PathKeepsRep(rep, edges, p[1..], p[1], v);
    }
  }

  // Representatives are components as soon as edges keep them and each node
  // is connected to its own.
  lemma {:induction false} ComponentsFrom(rep: map<int, int>, edges: Edges)
    requires WithinNodes(edges, rep.Keys)
    requires forall a, b :: (a, b) in edges ==> rep[a] == rep[b]
    requires forall n :: n in rep ==> Connected(edges, n, rep[n])
    ensures RepsAreComponents(rep, edges)
  {
    forall u, v | u in rep && v in rep ensures rep[u] == rep[v] <==> Connected(edges, u, v) {
      if rep[u] == rep[v] {
        ConnectedSymmetric(edges, v, rep[v]);
        ConnectedTransitive(edges, u, rep[u], v);
      }
      if Connected(edges, u, v) {
        var p :| PathBetween(edges, p, u, v);
        PathKeepsRep(rep, edges, p, u, v);
      }
    }
  }

  ghost predicate Idempotent(rep: map<int, int>) {
    forall r {:trigger r in rep.Values} :: r in rep.Values ==> r in rep && rep[r] == r
  }

  // What uniting two nodes does to the representatives.
  ghost function United(rep: map<int, int>, u: int, v: int): map<int, int>
    requires u in rep && v in rep
  {
    if rep[u] < rep[v] then Merged(rep, rep[u], rep[v])
    else if rep[v] < rep[u] then Merged(rep, rep[v], rep[u])
    else rep
  }

  /** Uniting the ends of an edge keeps representatives and components in step. */
  lemma {:induction false} UnitedAreComponents(rep: map<int, int>, edges: Edges, u: int, v: int)
    requires RepsAreComponents(rep, edges) && Idempotent(rep) && u in rep && v in rep
    ensures RepsAreComponents(United(rep, u, v), edges + {(u, v)})
  {
    var rep', edges' := United(rep, u, v), edges + {(u, v)};
    forall a, b | (a, b) in edges' ensures rep'[a] == rep'[b] {
      if (a, b) in edges {
        LinkedConnected(edges, a, b);
      }
    }
    forall n | n in rep' ensures Connected(edges', n, rep'[n]) {
      UnitedReaches(rep, edges, u, v, n);
    }
    ComponentsFrom(rep', edges');
  }

  lemma {:induction false} UnitedReaches(rep: map<int, int>, edges: Edges, u: int, v: int, n: int)
    requires RepsAreComponents(rep, edges) && Idempotent(rep) && u in rep && v in rep && n in rep
    ensures Connected(edges + {(u, v)}, n, United(rep, u, v)[n])
  {
    var edges' := edges + {(u, v)};
    assert rep[n] in rep.Values && rep[u] in rep.Values && rep[v] in rep.Values;
    ConnectedMonotone(edges, edges', n, rep[n]);
    if rep[u] != rep[v] && (rep[n] == rep[u] || rep[n] == rep[v]) {
      var x, y := if rep[n] == rep[u] then u else v, if rep[n] == rep[u] then v else u;
      ConnectedMonotone(edges, edges', n, x);
      LinkedConnected(edges', x, y);
      ConnectedTransitive(edges', n, x, y);
      ConnectedMonotone(edges, edges', y, rep[y]);
      ConnectedTransitive(edges', n, y, rep[y]);
    }
  }

  lemma {:induction false} SingletonComponents(rep: map<int, int>)
    requires forall n :: n in rep ==> rep[n] == n
    ensures RepsAreComponents(rep, {})
  {
    forall n | n in rep ensures Connected({}, n, rep[n]) {
      ConnectedSelf({}, n);
    }
    ComponentsFrom(rep, {});
  }

  lemma {:induction false} ForestIdempotent(parent: Parents, rep: map<int, int>)
    requires Forest(parent, rep)
    ensures Idempotent(rep)
  {
    forall n | n in rep ensures rep[n] in rep && rep[rep[n]] == rep[n] {
      assert NodeOk(parent, rep, n) && NodeOk(parent, rep, rep[n]);
    }
  }

  /** The representative is a member of the component and its smallest id. */
  lemma {:induction false} RepIsSmallest(parent: Parents, rep: map<int, int>, edges: Edges, u: int, v: int)
    requires Forest(parent, rep) && RepsAreComponents(rep, edges)
    requires u in rep && v in rep && Connected(edges, u, v)
    ensures rep[u] <= v && rep[u] in rep && Connected(edges, u, rep[u])
  {
    assert NodeOk(parent, rep, u) && NodeOk(parent, rep, v) && NodeOk(parent, rep, rep[u]);
  }

  // ----- The structure ------------------------------------------------------

  class UnionFind {
    var parent: Parents
    ghost var rep: map<int, int>

    ghost predicate Valid()
      reads this
    {
      Forest(parent, rep)
    }

    constructor (nodes: seq<int>)
      ensures Valid() && rep == map n | n in nodes :: n
    {
      parent := map n | n in nodes :: n;
      rep := map n | n in nodes :: n;
    }

    method Find(node: int) returns (root: int)
      requires Valid() && node in rep
      modifies this`parent
      ensures Valid() && root == rep[node] == old(RootOf(parent, node))
      ensures node in parent && parent[node] == root
      decreases UpTo(parent, node)
    {
      assert NodeOk(parent, rep, node);
      RepIsRoot(parent, rep, node);
      var up := parent[node];
      if up != node {
        assert node in UpTo(parent, node) && node !in UpTo(parent, up);
        var r := Find(up);
        CompressionKeepsReps(parent, rep, node);
        parent := parent[node := r];
      }
      return parent[node];
    }

    method Union(left: int, right: int)
      requires Valid() && left in rep && right in rep
      modifies this
      ensures Valid() && rep == United(old(rep), left, right)
    {
      ForestIdempotent(parent, rep);
      assert rep[left] in rep.Values && rep[right] in rep.Values;
      var leftRoot := Find(left);
      var rightRoot := Find(right);
      if leftRoot == rightRoot {
        return;
      }
      if leftRoot < rightRoot {
        HangingMerges(parent, rep, leftRoot, rightRoot);
        parent := parent[rightRoot := leftRoot];
        rep := Merged(rep, leftRoot, rightRoot);
      } else {
        HangingMerges(parent, rep, rightRoot, leftRoot);
        parent := parent[leftRoot := rightRoot];
        rep := Merged(rep, rightRoot, leftRoot);
      }
    }
  }
}
