/**
  MinHash deduplication: documents whose signatures collide in some band become
  candidate pairs, and the components of the candidate graph decide which
  documents are kept.
*/
module Dedupe {
  import opened Wrappers
  import opened DisjointSets
  import opened Sequences

  datatype Doc = Doc(node: int, signature: seq<int>, shingles: set<string>)

  function ValueAt(s: seq<int>, i: nat): Option<int> {
    if i < |s| then Some(s[i]) else None
  }

  // The band digest is an arbitrary function of the band's hash values.
  datatype Banding = Banding(bands: nat, rowsPerBand: nat, digest: seq<int> -> string) {
    // What position k of a band holds, if the signature is long enough.
    ghost function InBand(signature: seq<int>, band: nat, k: nat): Option<int> {
      ValueAt(signature, band * rowsPerBand + k)
    }

    ghost predicate IsBand(signature: seq<int>, band: nat, values: seq<int>) {
      |values| <= rowsPerBand && forall k :: 0 <= k < rowsPerBand ==> ValueAt(values, k) == InBand(signature, band, k)
    }

    // Slicing past the end of a signature is cut short.
    function BandValues(signature: seq<int>, band: nat): (values: seq<int>)
      ensures IsBand(signature, band, values)
    {
      var start, end := band * rowsPerBand, band * rowsPerBand + rowsPerBand;
      if start >= |signature| then []
      else if end >= |signature| then signature[start..]
      else signature[start..end]
    }

    function KeyOf(d: Doc, band: nat): Key {
      Key(band, digest(BandValues(d.signature, band)))
    }
  }

  datatype Key = Key(band: nat, digest: string)

  type Buckets = map<Key, set<int>>

  // ----- Buckets ------------------------------------------------------------

  ghost predicate Holds(buckets: Buckets, key: Key, node: int) {
    key in buckets && node in buckets[key]
  }

  ghost predicate FallsInto(b: Banding, d: Doc, key: Key, node: int) {
    d.node == node && key.band < b.bands && b.KeyOf(d, key.band) == key
  }

  ghost predicate SomeFallsInto(b: Banding, rows: seq<Doc>, key: Key, node: int) {
    exists i :: 0 <= i < |rows| && FallsInto(b, rows[i], key, node)
  }

  // A bucket holds exactly the nodes of the documents with its band digest.
  ghost predicate BucketsOf(b: Banding, rows: seq<Doc>, buckets: Buckets) {
    forall key, node {:trigger Holds(buckets, key, node)}{:trigger SomeFallsInto(b, rows, key, node)} ::
      Holds(buckets, key, node) <==> SomeFallsInto(b, rows, key, node)
  }

  method AddDocument(b: Banding, d: Doc, buckets: Buckets) returns (buckets': Buckets)
    ensures forall key, node :: Holds(buckets', key, node) <==> Holds(buckets, key, node) || FallsInto(b, d, key, node)
  {
    buckets' := buckets;
    var band := 0;
    while band < b.bands
      invariant 0 <= band <= b.bands
      invariant forall key, node :: Holds(buckets', key, node) <==>
                  Holds(buckets, key, node) || (FallsInto(b, d, key, node) && key.band < band)
    {
      var key := b.KeyOf(d, band);
      buckets' := buckets'[key := (if key in buckets' then buckets'[key] else {}) + {d.node}];
      band := band + 1;
    }
  }

  method CollectBuckets(b: Banding, rows: seq<Doc>) returns (buckets: Buckets)
    ensures BucketsOf(b, rows, buckets)
  {
    buckets := map[];
    var i := 0;
    while i < |rows|
      invariant 0 <= i <= |rows|
      invariant BucketsOf(b, rows[..i], buckets)
    {
      var buckets' := AddDocument(b, rows[i], buckets);
      BucketsOfSnoc(b, rows[..i], rows[i], buckets, buckets');
      assert rows[..i + 1] == rows[..i] + [rows[i]];
      buckets := buckets';
      i := i + 1;
    }
    assert rows[..|rows|] == rows;
  }

  lemma {:induction false} BucketsOfSnoc(b: Banding, rows: seq<Doc>, d: Doc, buckets: Buckets, buckets': Buckets)
    requires BucketsOf(b, rows, buckets)
    requires forall key, node :: Holds(buckets', key, node) <==> Holds(buckets, key, node) || FallsInto(b, d, key, node)
    ensures BucketsOf(b, rows + [d], buckets')
  {
    forall key, node ensures Holds(buckets', key, node) <==> SomeFallsInto(b, rows + [d], key, node) {
      assert SomeFallsInto(b, rows, key, node) <==> Holds(buckets, key, node);
      if SomeFallsInto(b, rows, key, node) {
        var i :| 0 <= i < |rows| && FallsInto(b, rows[i], key, node);
        assert FallsInto(b, (rows + [d])[i], key, node);
      }
      if FallsInto(b, d, key, node) {
        assert FallsInto(b, (rows + [d])[|rows|], key, node);
      }
    }
  }

  // ----- Pairs of one bucket ------------------------------------------------

  ghost predicate Smallest(members: set<int>, u: int) {
    u in members && forall w :: w in members ==> u <= w
  }

  // A full clique, or for an oversized bucket the star around its smallest id.
  ghost function PairsOf(members: set<int>, maxSize: int): Edges {
    set u, v | u in members && v in members && u < v && (|members| <= maxSize || Smallest(members, u)) :: (u, v)
  }

  lemma {:induction false} SmallestExists(members: set<int>, x: int) returns (m: int)
    requires x in members
    ensures Smallest(members, m)
    decreases |members|
  {
    if y :| y in members && y < x {
      m := SmallestExists(members - {x}, y);
      assert m <= y && forall w :: w in members ==> w == x || w in members - {x};
    } else {
      m := x;
    }
  }

  /** However a bucket is turned into pairs, they connect all its members. */
  lemma {:induction false} PairsConnectMembers(members: set<int>, maxSize: int, u: int, v: int)
    requires u in members && v in members
    ensures Connected(PairsOf(members, maxSize), u, v)
  {
    var m := SmallestExists(members, u);
    var pairs := PairsOf(members, maxSize);
    ToSmallest(members, maxSize, m, u);
    ToSmallest(members, maxSize, m, v);
    ConnectedSymmetric(pairs, v, m);
    ConnectedTransitive(pairs, u, m, v);
  }

  lemma {:induction false} ToSmallest(members: set<int>, maxSize: int, m: int, u: int)
    requires Smallest(members, m) && u in members
    ensures Connected(PairsOf(members, maxSize), u, m)
  {
    if u == m {
      ConnectedSelf(PairsOf(members, maxSize), u);
    } else {
      assert (m, u) in PairsOf(members, maxSize);
      LinkedConnected(PairsOf(members, maxSize), u, m);
    }
  }

  // ----- Pairs of all buckets -----------------------------------------------

  ghost function RawPairs(buckets: Buckets, maxSize: int): Edges {
    set key, p | key in buckets && p in PairsOf(buckets[key], maxSize) :: p
  }

  // Two nodes collide when some bucket holds both.
  ghost function Collisions(buckets: Buckets): Edges {
    set key, u, v | key in buckets && u in buckets[key] && v in buckets[key] :: (u, v)
  }

  lemma {:induction false} BucketPairsAreRaw(buckets: Buckets, maxSize: int, key: Key, u: int, v: int)
    requires key in buckets && u in buckets[key] && v in buckets[key]
    ensures Connected(RawPairs(buckets, maxSize), u, v)
  {
    PairsConnectMembers(buckets[key], maxSize, u, v);
    ConnectedMonotone(PairsOf(buckets[key], maxSize), RawPairs(buckets, maxSize), u, v);
  }

  /** The pairs connect exactly what the collisions connect, so the components
      are the same for every bucket size limit. */
  lemma {:induction false} ComponentsIgnoreBucketLimit(buckets: Buckets, maxSize: int, u: int, v: int)
    ensures Connected(RawPairs(buckets, maxSize), u, v) <==> Connected(Collisions(buckets), u, v)
  {
    var raw, all := RawPairs(buckets, maxSize), Collisions(buckets);
    if Connected(raw, u, v) {
      forall a, b | (a, b) in raw ensures Connected(all, a, b) {
        var key :| key in buckets && (a, b) in PairsOf(buckets[key], maxSize);
        assert (a, b) in all;
        LinkedConnected(all, a, b);
      }
      ConnectedWithin(raw, all, u, v);
    }
    if Connected(all, u, v) {
      forall a, b | (a, b) in all ensures Connected(raw, a, b) {
        var key :| key in buckets && a in buckets[key] && b in buckets[key];
        BucketPairsAreRaw(buckets, maxSize, key, a, b);
      }
      ConnectedWithin(all, raw, u, v);
    }
  }

  // ----- Sorting ------------------------------------------------------------

  ghost predicate StrictOrder<T(!new)>(less: (T, T) -> bool) {
    && (forall a, b :: a != b ==> less(a, b) || less(b, a))
    && (forall a, b, c :: less(a, b) && less(b, c) ==> less(a, c))
    && (forall a :: !less(a, a))
  }

  ghost predicate Ascending<T>(q: seq<T>, less: (T, T) -> bool) {
    forall i, j :: 0 <= i < j < |q| ==> less(q[i], q[j])
  }

  method Insert<T(!new)>(q: seq<T>, x: T, less: (T, T) -> bool) returns (r: seq<T>)
    requires StrictOrder(less) && Ascending(q, less) && x !in q
    ensures Ascending(r, less) && forall y :: y in r <==> y in q || y == x
  {
    var k := |q|;
    while k > 0 && less(x, q[k - 1])
      invariant 0 <= k <= |q|
      invariant forall i :: k <= i < |q| ==> less(x, q[i])
    {
      k := k - 1;
    }
    if k > 0 {
      assert q[k - 1] in q && less(q[k - 1], x);
    }
    r := q[..k] + [x] + q[k..];
    InsertedAscending(q, x, k, less);
    assert forall y :: y in q <==> y in q[..k] || y in q[k..];
  }

  lemma {:induction false} InsertedAscending<T(!new)>(q: seq<T>, x: T, k: nat, less: (T, T) -> bool)
    requires StrictOrder(less) && Ascending(q, less) && k <= |q|
    requires k > 0 ==> less(q[k - 1], x)
    requires forall i :: k <= i < |q| ==> less(x, q[i])
    ensures Ascending(q[..k] + [x] + q[k..], less)
  {
    var r := q[..k] + [x] + q[k..];
    forall i, j | 0 <= i < j < |r| ensures less(r[i], r[j]) {
      var a, b := if i < k then i else i - 1, if j < k then j else j - 1;
      if i < k && j == k {
        assert less(q[i], x) by {
          if i < k - 1 {
            assert less(q[i], q[k - 1]);
          }
        }
      } else if i != k && j != k {
        assert less(q[a], q[b]);
      }
    }
  }

  // The members of a set in ascending order.
  method Sorted<T(==, !new)>(s: set<T>, less: (T, T) -> bool) returns (r: seq<T>)
    requires StrictOrder(less)
    ensures Ascending(r, less) && forall y :: y in r <==> y in s
  {
    r := [];
    var todo := s;
    while todo != {}
      invariant todo <= s && Ascending(r, less)
      invariant forall y :: y in r <==> y in s && y !in todo
      decreases |todo|
    {
      var x :| x in todo;
      r := Insert(r, x, less);
      todo := todo - {x};
    }
  }

  function IntLess(a: int, b: int): bool {
    a < b
  }

  function PairLess(a: (int, int), b: (int, int)): bool {
    a.0 < b.0 || (a.0 == b.0 && a.1 < b.1)
  }

  lemma {:induction false} Orders()
    ensures StrictOrder(IntLess) && StrictOrder(PairLess)
  {
    forall a: (int, int), b: (int, int) | a != b ensures PairLess(a, b) || PairLess(b, a) {
      assert a == (a.0, a.1) && b == (b.0, b.1);
    }
  }

  // ----- Candidate pairs ----------------------------------------------------

  ghost predicate Lists(q: seq<int>, members: set<int>) {
    Ascending(q, IntLess) && forall y :: y in q <==> y in members
  }

  lemma {:induction false} AscendingSize(q: seq<int>)
    requires Ascending(q, IntLess)
    ensures |set y | y in q| == |q|
  {
    if q != [] {
      AscendingSize(q[1..]);
      assert q == [q[0]] + q[1..] && q[0] !in q[1..];
      assert (set y | y in q) == (set y | y in q[1..]) + {q[0]};
    }
  }

  lemma {:induction false} ListsAll(q: seq<int>, members: set<int>)
    requires Lists(q, members)
    ensures |q| == |members|
  {
    AscendingSize(q);
    assert forall y :: y in q <==> y in members;
    assert members == set y | y in q;
  }

  ghost function StarPairs(nodes: seq<int>): Edges {
    set j | 1 <= j < |nodes| :: (nodes[0], nodes[j])
  }

  ghost function CliquePairs(nodes: seq<int>): Edges {
    set i, j | 0 <= i < j < |nodes| :: (nodes[i], nodes[j])
  }

  // Positions in the sorted list stand for the order of ids.
  lemma {:induction false} PairsByPosition(members: set<int>, maxSize: int, nodes: seq<int>)
    requires Lists(nodes, members)
    ensures PairsOf(members, maxSize) == if |nodes| > maxSize then StarPairs(nodes) else CliquePairs(nodes)
  {
    ListsAll(nodes, members);
    if |nodes| > maxSize {
      forall u, v | (u, v) in PairsOf(members, maxSize) ensures (u, v) in StarPairs(nodes) {
        var j :| 0 <= j < |nodes| && nodes[j] == v;
        assert nodes[0] in nodes;
        assert Smallest(members, u) && u == nodes[0];
        assert (nodes[0], nodes[j]) in StarPairs(nodes);
      }
      forall j | 1 <= j < |nodes| ensures (nodes[0], nodes[j]) in PairsOf(members, maxSize) {
        assert Smallest(members, nodes[0]) && nodes[j] in nodes;
      }
    } else {
      forall u, v | (u, v) in PairsOf(members, maxSize) ensures (u, v) in CliquePairs(nodes) {
        var i :| 0 <= i < |nodes| && nodes[i] == u;
        var j :| 0 <= j < |nodes| && nodes[j] == v;
        assert i < j;
      }
      forall i, j | 0 <= i < j < |nodes| ensures (nodes[i], nodes[j]) in PairsOf(members, maxSize) {
        assert nodes[i] in nodes && nodes[j] in nodes;
      }
    }
  }

  method Star(nodes: seq<int>) returns (pairs: Edges)
    requires |nodes| >= 2
    ensures pairs == StarPairs(nodes)
  {
    pairs := {};
    var j := 1;
    while j < |nodes|
      invariant 1 <= j <= |nodes|
      invariant pairs == StarPairs(nodes[..j])
    {
      pairs := pairs + {(nodes[0], nodes[j])};
      assert nodes[..j + 1][..j] == nodes[..j];
      j := j + 1;
    }
    assert nodes[..|nodes|] == nodes;
  }

  // All pairs of distinct positions, each once.
  method Clique(nodes: seq<int>) returns (pairs: Edges)
    ensures pairs == CliquePairs(nodes)
  {
    pairs := {};
    var j := 0;
    while j < |nodes|
      invariant 0 <= j <= |nodes|
      invariant pairs == CliquePairs(nodes[..j])
    {
      ghost var before := pairs;
      var i := 0;
      while i < j
        invariant 0 <= i <= j
        invariant pairs == before + Column(nodes, i, j)
      {
        pairs := pairs + {(nodes[i], nodes[j])};
        i := i + 1;
      }
      CliqueGrows(nodes, j);
      j := j + 1;
    }
    assert nodes[..|nodes|] == nodes;
  }

  ghost function Column(nodes: seq<int>, i: nat, j: nat): Edges
    requires i <= j < |nodes|
  {
    set a | 0 <= a < i :: (nodes[a], nodes[j])
  }

  lemma {:induction false} CliqueGrows(nodes: seq<int>, j: nat)
    requires j < |nodes|
    ensures CliquePairs(nodes[..j + 1]) == CliquePairs(nodes[..j]) + Column(nodes, j, j)
  {
    var q, r := nodes[..j], nodes[..j + 1];
    forall p | p in CliquePairs(r) ensures p in CliquePairs(q) + Column(nodes, j, j) {
      var a, b :| 0 <= a < b < |r| && p == (r[a], r[b]);
      if b < j {
        assert (q[a], q[b]) in CliquePairs(q);
      } else {
        assert (nodes[a], nodes[j]) in Column(nodes, j, j);
      }
    }
    forall p | p in CliquePairs(q) ensures p in CliquePairs(r) {
      var a, b :| 0 <= a < b < |q| && p == (q[a], q[b]);
      assert (r[a], r[b]) in CliquePairs(r);
    }
    forall p | p in Column(nodes, j, j) ensures p in CliquePairs(r) {
      var a :| 0 <= a < j && p == (nodes[a], nodes[j]);
      assert (r[a], r[j]) in CliquePairs(r);
    }
  }

  method EmitPairs(members: set<int>, maxSize: int) returns (pairs: Edges)
    ensures pairs == PairsOf(members, maxSize)
    ensures |members| <= maxSize ==>
              forall u, v :: (u, v) in pairs <==> u in members && v in members && u < v
    ensures |members| > maxSize ==>
              forall u, v :: (u, v) in pairs <==> u in members && v in members && u < v &&
                                                  forall w :: w in members ==> u <= w
  {
    Orders();
    var nodes := Sorted(members, IntLess);
    assert Lists(nodes, members);
    PairsByPosition(members, maxSize, nodes);
    if |nodes| < 2 {
      return {};
    }
    if |nodes| > maxSize {
      pairs := Star(nodes);
    } else {
      pairs := Clique(nodes);
    }
  }

  // The shingles of a node are those of its last row.
  function ShinglesByNode(rows: seq<Doc>): map<int, set<string>> {
    if rows == [] then map[]
    else ShinglesByNode(rows[..|rows| - 1])[rows[|rows| - 1].node := rows[|rows| - 1].shingles]
  }

  // The share of common members; two empty sets count as equal.
  function Jaccard(left: set<string>, right: set<string>): (r: real)
    ensures r * |left + right| as real == |left * right| as real
    ensures left + right == {} ==> r == 1.0
  {
    if left == {} && right == {} then 1.0
    else if left == {} || right == {} then 0.0
    else
      assert |left + right| > 0 by { assert left <= left + right; }
      |left * right| as real / |left + right| as real
  }

  datatype Candidate = Candidate(u: int, v: int, jaccard: real)

  ghost function Accepted(rows: seq<Doc>, raw: Edges, exact: bool, threshold: real): Edges {
    var shingles := ShinglesByNode(rows);
    set p | p in raw && p.0 in shingles && p.1 in shingles &&
            (!exact || Jaccard(shingles[p.0], shingles[p.1]) >= threshold)
  }

  ghost function EdgesOf(candidates: seq<Candidate>): Edges {
    set c | c in candidates :: (c.u, c.v)
  }

  ghost predicate SortedCandidates(candidates: seq<Candidate>) {
    forall i, j :: 0 <= i < j < |candidates| ==>
      || candidates[i].u < candidates[j].u
      || (candidates[i].u == candidates[j].u && candidates[i].v < candidates[j].v)
  }

  // Every candidate carries the similarity of its documents.
  ghost predicate Scored(rows: seq<Doc>, candidates: seq<Candidate>) {
    var shingles := ShinglesByNode(rows);
    forall c :: c in candidates ==>
      c.u in shingles && c.v in shingles && c.jaccard == Jaccard(shingles[c.u], shingles[c.v])
  }

  /** A node has the shingles of its last row. */
  lemma {:induction false} ShinglesOfLastRow(rows: seq<Doc>, i: nat)
    requires i < |rows| && forall j :: i < j < |rows| ==> rows[j].node != rows[i].node
    ensures rows[i].node in ShinglesByNode(rows) && ShinglesByNode(rows)[rows[i].node] == rows[i].shingles
  {
    if i < |rows| - 1 {
      ShinglesOfLastRow(rows[..|rows| - 1], i);
    }
  }

  lemma {:induction false} NodesHaveShingles(rows: seq<Doc>, i: nat)
    requires i < |rows|
    ensures rows[i].node in ShinglesByNode(rows)
  {
    if i < |rows| - 1 {
      NodesHaveShingles(rows[..|rows| - 1], i);
    }
  }

  lemma {:induction false} PairsHaveShingles(b: Banding, rows: seq<Doc>, buckets: Buckets, maxSize: int, p: (int, int))
    requires BucketsOf(b, rows, buckets) && p in RawPairs(buckets, maxSize)
    ensures p.0 in ShinglesByNode(rows) && p.1 in ShinglesByNode(rows)
  {
    var key :| key in buckets && p in PairsOf(buckets[key], maxSize);
    assert Holds(buckets, key, p.0) && Holds(buckets, key, p.1);
    var i :| 0 <= i < |rows| && FallsInto(b, rows[i], key, p.0);
    var j :| 0 <= j < |rows| && FallsInto(b, rows[j], key, p.1);
    NodesHaveShingles(rows, i);
    NodesHaveShingles(rows, j);
  }

  // Buckets are visited in no particular order.
  method CollectPairs(buckets: Buckets, maxSize: int) returns (raw: Edges)
    ensures raw == RawPairs(buckets, maxSize)
  {
    raw := {};
    var todo := buckets.Keys;
    while todo != {}
      invariant todo <= buckets.Keys
      invariant forall p :: p in raw <==>
                  exists key :: key in buckets && key !in todo && p in PairsOf(buckets[key], maxSize)
      decreases |todo|
    {
      var key :| key in todo;
      var pairs := EmitPairs(buckets[key], maxSize);
      ghost var before := raw;
      raw := raw + pairs;
      forall p | p in raw ensures exists k :: k in buckets && k !in todo - {key} && p in PairsOf(buckets[k], maxSize) {
        if p in before {
          var k :| k in buckets && k !in todo && p in PairsOf(buckets[k], maxSize);
          assert k !in todo - {key};
        } else {
          assert key !in todo - {key};
        }
      }
      todo := todo - {key};
    }
  }

  method FilterPairs(rows: seq<Doc>, raw: Edges, exact: bool, threshold: real) returns (candidates: seq<Candidate>)
    requires forall p :: p in raw ==> p.0 in ShinglesByNode(rows) && p.1 in ShinglesByNode(rows)
    ensures EdgesOf(candidates) == Accepted(rows, raw, exact, threshold) && SortedCandidates(candidates)
    ensures Scored(rows, candidates)
  {
    Orders();
    var shingles := ShinglesByNode(rows);
    var pairs := Sorted(raw, PairLess);
    candidates := [];
    var i := 0;
    while i < |pairs|
      invariant 0 <= i <= |pairs|
      invariant SortedCandidates(candidates) && Scored(rows, candidates)
      invariant forall c, j :: c in candidates && i <= j < |pairs| ==> PairLess((c.u, c.v), pairs[j])
      invariant forall p :: p in EdgesOf(candidates) <==> p in pairs[..i] && p in Accepted(rows, raw, exact, threshold)
    {
      assert pairs[i] in pairs;
      var u, v := pairs[i].0, pairs[i].1;
      var score := Jaccard(shingles[u], shingles[v]);
      assert pairs[..i + 1] == pairs[..i] + [pairs[i]];
      if !exact || score >= threshold {
        EdgesSnoc(candidates, Candidate(u, v, score));
        candidates := candidates + [Candidate(u, v, score)];
      }
      i := i + 1;
    }
    assert pairs[..|pairs|] == pairs;
  }

  lemma {:induction false} EdgesSnoc(candidates: seq<Candidate>, c: Candidate)
    ensures EdgesOf(candidates + [c]) == EdgesOf(candidates) + {(c.u, c.v)}
  {
    forall d | d in candidates ensures (d.u, d.v) in EdgesOf(candidates + [c]) {
      assert d in candidates + [c];
    }
    assert c in candidates + [c];
  }

  /** The candidate pairs are the bucket pairs, restricted to those similar
      enough when exact checking is on, in ascending order. */
  method LshCandidates(b: Banding, rows: seq<Doc>, threshold: real, exact: bool, maxSize: int)
    returns (candidates: seq<Candidate>, buckets: Buckets)
    ensures BucketsOf(b, rows, buckets)
    ensures EdgesOf(candidates) == Accepted(rows, RawPairs(buckets, maxSize), exact, threshold)
    ensures SortedCandidates(candidates) && Scored(rows, candidates)
    ensures !exact ==> EdgesOf(candidates) == RawPairs(buckets, maxSize)
    ensures exact ==> forall p :: p in RawPairs(buckets, maxSize) ==>
              && p.0 in ShinglesByNode(rows) && p.1 in ShinglesByNode(rows)
              && (p !in EdgesOf(candidates) <==>
                  Jaccard(ShinglesByNode(rows)[p.0], ShinglesByNode(rows)[p.1]) < threshold)
  {
    buckets := CollectBuckets(b, rows);
    var raw := CollectPairs(buckets, maxSize);
    forall p | p in raw ensures p.0 in ShinglesByNode(rows) && p.1 in ShinglesByNode(rows) {
      PairsHaveShingles(b, rows, buckets, maxSize, p);
    }
    candidates := FilterPairs(rows, raw, exact, threshold);
  }

  // ----- Components ---------------------------------------------------------

  datatype Error = UnknownNode

  datatype Annotated = Annotated(node: int, component: int, isDuplicate: bool)

  ghost function PairSet(pairs: seq<(int, int)>): Edges {
    set p | p in pairs
  }

  ghost predicate KnownPairs(nodes: seq<int>, pairs: seq<(int, int)>) {
    forall p :: p in pairs ==> p.0 in nodes && p.1 in nodes
  }

  // Unites the ends of every pair; stops at the first unknown node.
  method UniteAll(nodes: seq<int>, pairs: seq<(int, int)>) returns (r: Result<UnionFind, Error>)
    ensures r.Success? <==> KnownPairs(nodes, pairs)
    ensures r.Success? ==>
              && fresh(r.value) && r.value.Valid() && (forall n :: n in r.value.rep <==> n in nodes)
              && RepsAreComponents(r.value.rep, PairSet(pairs))
  {
    var uf := new UnionFind(nodes);
    SingletonComponents(uf.rep);
    assert PairSet([]) == {};
    var i := 0;
    while i < |pairs|
      invariant 0 <= i <= |pairs| && fresh(uf) && uf.Valid()
      invariant forall n :: n in uf.rep <==> n in nodes
      invariant KnownPairs(nodes, pairs[..i]) && RepsAreComponents(uf.rep, PairSet(pairs[..i]))
    {
      var u, v := pairs[i].0, pairs[i].1;
      assert pairs[..i + 1] == pairs[..i] + [pairs[i]];
      if u !in nodes || v !in nodes {
        assert pairs[i] in pairs;
        return Failure(UnknownNode);
      }
      ForestIdempotent(uf.parent, uf.rep);
      UnitedAreComponents(uf.rep, PairSet(pairs[..i]), u, v);
      assert PairSet(pairs[..i + 1]) == PairSet(pairs[..i]) + {(u, v)};
      uf.Union(u, v);
      i := i + 1;
    }
    assert pairs[..|pairs|] == pairs;
    return Success(uf);
  }

  // A row names the smallest id connected to its node.
  ghost predicate RowOk(edges: Edges, nodes: seq<int>, row: Annotated) {
    && row.component in nodes && Connected(edges, row.node, row.component)
    && (forall v {:trigger Connected(edges, row.node, v)} ::
          v in nodes && Connected(edges, row.node, v) ==> row.component <= v)
    && row.isDuplicate == (row.node != row.component)
  }

  ghost predicate RowsOk(edges: Edges, nodes: seq<int>, rows: seq<Annotated>) {
    && |rows| == |nodes|
    && forall i :: 0 <= i < |nodes| ==> rows[i].node == nodes[i] && RowOk(edges, nodes, rows[i])
  }

  method Annotate(uf: UnionFind, nodes: seq<int>, ghost edges: Edges) returns (rows: seq<Annotated>)
    requires uf.Valid() && (forall n :: n in uf.rep <==> n in nodes) && RepsAreComponents(uf.rep, edges)
    modifies uf
    ensures RowsOk(edges, nodes, rows)
  {
    rows := [];
    var i := 0;
    while i < |nodes|
      invariant 0 <= i <= |nodes| && uf.Valid() && uf.rep == old(uf.rep)
      invariant |rows| == i && forall j :: 0 <= j < i ==> rows[j].node == nodes[j] && RowOk(edges, nodes, rows[j])
    {
      var component := uf.Find(nodes[i]);
      var row := Annotated(nodes[i], component, nodes[i] != component);
      AnnotationOk(uf.parent, uf.rep, edges, nodes, row);
      rows := rows + [row];
      i := i + 1;
    }
  }

  lemma {:induction false} AnnotationOk(parent: Parents, rep: map<int, int>, edges: Edges, nodes: seq<int>,
                                        row: Annotated)
    requires Forest(parent, rep) && RepsAreComponents(rep, edges) && (forall n :: n in rep <==> n in nodes)
    requires row.node in nodes && row.component == rep[row.node] && row.isDuplicate == (row.node != row.component)
    ensures RowOk(edges, nodes, row)
  {
    ConnectedSelf(edges, row.node);
    RepIsSmallest(parent, rep, edges, row.node, row.node);
    forall v | v in nodes && Connected(edges, row.node, v) ensures row.component <= v {
      RepIsSmallest(parent, rep, edges, row.node, v);
    }
  }

  function Marked(rows: seq<Annotated>, duplicate: bool): seq<Annotated> {
    if rows == [] then []
    else (if rows[0].isDuplicate == duplicate then [rows[0]] else []) + Marked(rows[1..], duplicate)
  }

  lemma {:induction false} MarkedMembers(rows: seq<Annotated>, duplicate: bool)
    ensures forall row :: row in Marked(rows, duplicate) <==> row in rows && row.isDuplicate == duplicate
  {
    if rows != [] {
      MarkedMembers(rows[1..], duplicate);
      assert rows == [rows[0]] + rows[1..];
    }
  }

  /** Kept and duplicate rows partition the annotated rows. */
  lemma {:induction false} MarkedPartition(rows: seq<Annotated>)
    ensures multiset(Marked(rows, false)) + multiset(Marked(rows, true)) == multiset(rows)
  {
    if rows != [] {
      MarkedPartition(rows[1..]);
      assert rows == [rows[0]] + rows[1..];
    }
  }

  // Row k survives and stands for the component of u.
  ghost predicate KeptFor(edges: Edges, rows: seq<Annotated>, u: int, k: nat) {
    k < |rows| && !rows[k].isDuplicate && Connected(edges, u, rows[k].node)
  }

  lemma {:induction false} SomeRowKept(edges: Edges, nodes: seq<int>, rows: seq<Annotated>, u: int) returns (k: nat)
    requires RowsOk(edges, nodes, rows) && u in nodes
    ensures KeptFor(edges, rows, u, k)
  {
    var i :| 0 <= i < |nodes| && nodes[i] == u;
    var row := rows[i];
    assert RowOk(edges, nodes, row) && row.node == u;
    k :| 0 <= k < |nodes| && nodes[k] == row.component;
    ComponentRowKept(edges, nodes, row, rows[k]);
  }

  // The row of a component's smallest id is not a duplicate.
  lemma {:induction false} ComponentRowKept(edges: Edges, nodes: seq<int>, row: Annotated, kept: Annotated)
    requires RowOk(edges, nodes, row) && RowOk(edges, nodes, kept) && kept.node == row.component
    ensures !kept.isDuplicate
  {
    ConnectedTransitive(edges, row.node, kept.node, kept.component);
    ConnectedSelf(edges, kept.node);
  }

  lemma {:induction false} KeptRowsCoincide(edges: Edges, nodes: seq<int>, rows: seq<Annotated>, u: int, k: nat, l: nat)
    requires RowsOk(edges, nodes, rows) && KeptFor(edges, rows, u, k) && KeptFor(edges, rows, u, l)
    requires Distinct(nodes)
    ensures k == l
  {
    var a, b := rows[k].node, rows[l].node;
    ConnectedSymmetric(edges, u, a);
    ConnectedSymmetric(edges, u, b);
    ConnectedTransitive(edges, a, u, b);
    ConnectedTransitive(edges, b, u, a);
    assert nodes[k] == a && nodes[l] == b;
    assert a in nodes && b in nodes;
    assert a <= b && b <= a;
  }

  // Exactly one of the kept rows stands for the component of u.
  ghost predicate KeptOnce(edges: Edges, kept: seq<Annotated>, u: int) {
    && (exists k :: KeptFor(edges, kept, u, k))
    && (forall k, l :: KeptFor(edges, kept, u, k) && KeptFor(edges, kept, u, l) ==> k == l)
  }

  // Each kept row comes from a row of its own.
  lemma {:induction false} MarkedFrom(rows: seq<Annotated>, duplicate: bool, k: nat) returns (i: nat)
    requires k < |Marked(rows, duplicate)|
    ensures k <= i < |rows| && rows[i] == Marked(rows, duplicate)[k]
    ensures k == |Marked(rows[..i], duplicate)|
  {
    var first := if rows[0].isDuplicate == duplicate then 1 else 0;
    if k < first {
      i := 0;
      assert rows[..0] == [];
    } else {
      var j := MarkedFrom(rows[1..], duplicate, k - first);
      i := j + 1;
      assert rows[..i][1..] == rows[1..][..j];
    }
  }

  lemma {:induction false} SomeEntryKept(edges: Edges, nodes: seq<int>, rows: seq<Annotated>, u: int) returns (k: nat)
    requires RowsOk(edges, nodes, rows) && u in nodes
    ensures KeptFor(edges, Marked(rows, false), u, k)
  {
    var i := SomeRowKept(edges, nodes, rows, u);
    MarkedMembers(rows, false);
    assert rows[i] in Marked(rows, false);
    k :| 0 <= k < |Marked(rows, false)| && Marked(rows, false)[k] == rows[i];
  }

  lemma {:induction false} KeptEntriesCoincide(edges: Edges, nodes: seq<int>, rows: seq<Annotated>, u: int, k: nat,
                                               l: nat)
    requires RowsOk(edges, nodes, rows) && Distinct(nodes)
    requires KeptFor(edges, Marked(rows, false), u, k) && KeptFor(edges, Marked(rows, false), u, l)
    ensures k == l
  {
    var i := MarkedFrom(rows, false, k);
    var j := MarkedFrom(rows, false, l);
    KeptRowsCoincide(edges, nodes, rows, u, i, j);
  }

  /** With distinct ids, the kept list holds exactly one row for every component. */
  lemma {:induction false} OneKeptPerComponent(edges: Edges, nodes: seq<int>, rows: seq<Annotated>, u: int)
    requires RowsOk(edges, nodes, rows) && u in nodes && Distinct(nodes)
    ensures KeptOnce(edges, Marked(rows, false), u)
  {
    var kept := Marked(rows, false);
    var _ := SomeEntryKept(edges, nodes, rows, u);
    forall k, l | KeptFor(edges, kept, u, k) && KeptFor(edges, kept, u, l) ensures k == l {
      KeptEntriesCoincide(edges, nodes, rows, u, k, l);
    }
  }

  lemma {:induction false} OneKeptEverywhere(edges: Edges, nodes: seq<int>, rows: seq<Annotated>)
    requires RowsOk(edges, nodes, rows) && Distinct(nodes)
    ensures forall u :: u in nodes ==> KeptOnce(edges, Marked(rows, false), u)
  {
    forall u | u in nodes ensures KeptOnce(edges, Marked(rows, false), u) {
      OneKeptPerComponent(edges, nodes, rows, u);
    }
  }

  /** Two rows get the same component exactly when their nodes are connected. */
  lemma {:induction false} SameComponentWhenConnected(edges: Edges, nodes: seq<int>, p: Annotated, q: Annotated)
    requires RowOk(edges, nodes, p) && RowOk(edges, nodes, q)
    ensures p.component == q.component <==> Connected(edges, p.node, q.node)
  {
    ConnectedSymmetric(edges, q.node, q.component);
    if p.component == q.component {
      ConnectedTransitive(edges, p.node, p.component, q.node);
    }
    if Connected(edges, p.node, q.node) {
      ConnectedSymmetric(edges, p.node, q.node);
      ConnectedTransitive(edges, p.node, q.node, q.component);
      ConnectedTransitive(edges, q.node, p.node, p.component);
    }
  }

  method BuildComponents(nodes: seq<int>, pairs: seq<(int, int)>)
    returns (r: Result<(seq<Annotated>, seq<Annotated>, seq<Annotated>), Error>)
    ensures r.Success? <==> KnownPairs(nodes, pairs)
    ensures r.Success? ==>
              && RowsOk(PairSet(pairs), nodes, r.value.0)
              && r.value.1 == Marked(r.value.0, false) && r.value.2 == Marked(r.value.0, true)
    ensures r.Success? && Distinct(nodes) ==> forall u :: u in nodes ==> KeptOnce(PairSet(pairs), r.value.1, u)
  {
    var uf := UniteAll(nodes, pairs);
    if uf.Failure? {
      return Failure(uf.error);
    }
    var rows := Annotate(uf.value, nodes, PairSet(pairs));
    if Distinct(nodes) {
      OneKeptEverywhere(PairSet(pairs), nodes, rows);
    }
    return Success((rows, Marked(rows, false), Marked(rows, true)));
  }

  // ----- The whole pipeline -------------------------------------------------

  function NodesOf(rows: seq<Doc>): (nodes: seq<int>)
    ensures |nodes| == |rows| && forall i :: 0 <= i < |rows| ==> nodes[i] == rows[i].node
  {
    seq(|rows|, i requires 0 <= i < |rows| => rows[i].node)
  }

  // Two documents agree in a band when their signatures agree in its positions.
  ghost predicate AgreeInBand(b: Banding, c: Doc, d: Doc, band: nat) {
    && band < b.bands
    && forall k :: 0 <= k < b.rowsPerBand ==> b.InBand(c.signature, band, k) == b.InBand(d.signature, band, k)
  }

  lemma {:induction false} BandIsOne(b: Banding, signature: seq<int>, band: nat, values: seq<int>)
    requires b.IsBand(signature, band, values)
    ensures values == b.BandValues(signature, band)
  {
    SameValues(values, b.BandValues(signature, band), b.rowsPerBand);
  }

  lemma {:induction false} SameValues(v: seq<int>, w: seq<int>, n: nat)
    requires |v| <= n && |w| <= n && forall k :: 0 <= k < n ==> ValueAt(v, k) == ValueAt(w, k)
    ensures v == w
  {
    assert |v| < n ==> ValueAt(v, |v|) == ValueAt(w, |v|);
    assert |w| < n ==> ValueAt(v, |w|) == ValueAt(w, |w|);
    forall k | 0 <= k < |v| && k < |w| ensures v[k] == w[k] {
      assert ValueAt(v, k) == ValueAt(w, k);
    }
  }

  /** Two documents agree in a band exactly when it holds the same values for both. */
  lemma {:induction false} AgreeExactlyWhen(b: Banding, c: Doc, d: Doc, band: nat)
    requires band < b.bands
    ensures AgreeInBand(b, c, d, band) <==> b.BandValues(c.signature, band) == b.BandValues(d.signature, band)
  {
    var v := b.BandValues(c.signature, band);
    if AgreeInBand(b, c, d, band) {
      forall k | 0 <= k < b.rowsPerBand ensures ValueAt(v, k) == b.InBand(d.signature, band, k) {
        assert b.InBand(c.signature, band, k) == b.InBand(d.signature, band, k);
      }
      BandIsOne(b, d.signature, band, v);
    }
    if v == b.BandValues(d.signature, band) {
      forall k | 0 <= k < b.rowsPerBand
        ensures b.InBand(c.signature, band, k) == b.InBand(d.signature, band, k)
      {
        assert ValueAt(v, k) == b.InBand(c.signature, band, k);
      }
    }
  }

  // The positions of a band have the same digest in both documents.
  ghost predicate DigestsMeet(b: Banding, c: Doc, d: Doc, band: nat) {
    && band < b.bands
    && forall v, w :: b.IsBand(c.signature, band, v) && b.IsBand(d.signature, band, w) ==> b.digest(v) == b.digest(w)
  }

  ghost predicate SomeDigestsMeet(b: Banding, rows: seq<Doc>, u: int, v: int) {
    exists i, j, band :: 0 <= i < |rows| && 0 <= j < |rows| && rows[i].node == u && rows[j].node == v &&
                         DigestsMeet(b, rows[i], rows[j], band)
  }

  lemma {:induction false} DigestsMeetByKey(b: Banding, c: Doc, d: Doc, band: nat)
    requires band < b.bands
    ensures DigestsMeet(b, c, d, band) <==> b.KeyOf(c, band) == b.KeyOf(d, band)
  {
    if b.KeyOf(c, band) == b.KeyOf(d, band) {
      forall v, w | b.IsBand(c.signature, band, v) && b.IsBand(d.signature, band, w)
        ensures b.digest(v) == b.digest(w)
      {
        BandIsOne(b, c.signature, band, v);
        BandIsOne(b, d.signature, band, w);
      }
    }
  }

  /** Two nodes share a bucket exactly when the digests of some band meet in
      documents of theirs. */
  lemma {:induction false} CollideExactlyWhen(b: Banding, rows: seq<Doc>, buckets: Buckets, u: int, v: int)
    requires BucketsOf(b, rows, buckets)
    ensures (u, v) in Collisions(buckets) <==> SomeDigestsMeet(b, rows, u, v)
  {
    if (u, v) in Collisions(buckets) {
      var key :| key in buckets && u in buckets[key] && v in buckets[key];
      assert Holds(buckets, key, u) && Holds(buckets, key, v);
      var i :| 0 <= i < |rows| && FallsInto(b, rows[i], key, u);
      var j :| 0 <= j < |rows| && FallsInto(b, rows[j], key, v);
      DigestsMeetByKey(b, rows[i], rows[j], key.band);
      assert DigestsMeet(b, rows[i], rows[j], key.band);
    }
    if SomeDigestsMeet(b, rows, u, v) {
      var i, j, band :| 0 <= i < |rows| && 0 <= j < |rows| && rows[i].node == u && rows[j].node == v &&
                        DigestsMeet(b, rows[i], rows[j], band);
      DigestsMeetByKey(b, rows[i], rows[j], band);
      KeysCollide(b, rows, buckets, i, j, band);
    }
  }

  lemma {:induction false} KeysCollide(b: Banding, rows: seq<Doc>, buckets: Buckets, i: nat, j: nat, band: nat)
    requires BucketsOf(b, rows, buckets) && i < |rows| && j < |rows| && band < b.bands
    requires b.KeyOf(rows[i], band) == b.KeyOf(rows[j], band)
    ensures (rows[i].node, rows[j].node) in Collisions(buckets)
  {
    var key := b.KeyOf(rows[i], band);
    assert FallsInto(b, rows[i], key, rows[i].node) && FallsInto(b, rows[j], key, rows[j].node);
    assert SomeFallsInto(b, rows, key, rows[i].node) && SomeFallsInto(b, rows, key, rows[j].node);
    assert Holds(buckets, key, rows[i].node) && Holds(buckets, key, rows[j].node);
  }

  ghost predicate SimilarTogether(b: Banding, rows: seq<Doc>, annotated: seq<Annotated>) {
    && |annotated| == |rows|
    && forall i, j, band :: 0 <= i < |rows| && 0 <= j < |rows| && AgreeInBand(b, rows[i], rows[j], band) ==>
                              annotated[i].component == annotated[j].component
  }

  /** Documents that agree in some band get the same component. */
  lemma {:induction false} AgreementSharesComponent(b: Banding, rows: seq<Doc>, buckets: Buckets,
                                                    annotated: seq<Annotated>)
    requires BucketsOf(b, rows, buckets) && RowsOk(Collisions(buckets), NodesOf(rows), annotated)
    ensures SimilarTogether(b, rows, annotated)
  {
    forall i, j, band | 0 <= i < |rows| && 0 <= j < |rows| && AgreeInBand(b, rows[i], rows[j], band)
      ensures annotated[i].component == annotated[j].component
    {
      AgreeExactlyWhen(b, rows[i], rows[j], band);
      KeysCollide(b, rows, buckets, i, j, band);
      LinkedConnected(Collisions(buckets), rows[i].node, rows[j].node);
      SameComponentWhenConnected(Collisions(buckets), NodesOf(rows), annotated[i], annotated[j]);
    }
  }

  /** Deduplication without exact checking: every document is assigned the
      smallest id it is connected to through colliding bands, whatever the
      bucket size limit, and one document of each component is kept. */
  method Deduplicate(b: Banding, rows: seq<Doc>, maxSize: int)
    returns (annotated: seq<Annotated>, kept: seq<Annotated>, duplicates: seq<Annotated>, buckets: Buckets)
    ensures BucketsOf(b, rows, buckets) && RowsOk(Collisions(buckets), NodesOf(rows), annotated)
    ensures forall u, v :: (u, v) in Collisions(buckets) <==> SomeDigestsMeet(b, rows, u, v)
    ensures SimilarTogether(b, rows, annotated)
    ensures kept == Marked(annotated, false) && duplicates == Marked(annotated, true)
    ensures Distinct(NodesOf(rows)) ==> forall u :: u in NodesOf(rows) ==> KeptOnce(Collisions(buckets), kept, u)
  {
    var candidates;
    candidates, buckets := LshCandidates(b, rows, 0.0, false, maxSize);
    var nodes := NodesOf(rows);
    var pairs := seq(|candidates|, i requires 0 <= i < |candidates| => (candidates[i].u, candidates[i].v));
    CandidatePairs(candidates, pairs);
    CandidatesKnown(b, rows, buckets, maxSize, nodes, pairs);
    var built := BuildComponents(nodes, pairs);
    annotated, kept, duplicates := built.value.0, built.value.1, built.value.2;
    SameComponentsSameRows(buckets, maxSize, nodes, annotated);
    AgreementSharesComponent(b, rows, buckets, annotated);
    forall u, v ensures (u, v) in Collisions(buckets) <==> SomeDigestsMeet(b, rows, u, v) {
      CollideExactlyWhen(b, rows, buckets, u, v);
    }
    if Distinct(nodes) {
      OneKeptEverywhere(Collisions(buckets), nodes, annotated);
    }
  }

  lemma {:induction false} CandidatePairs(candidates: seq<Candidate>, pairs: seq<(int, int)>)
    requires |pairs| == |candidates|
    requires forall i :: 0 <= i < |pairs| ==> pairs[i] == (candidates[i].u, candidates[i].v)
    ensures PairSet(pairs) == EdgesOf(candidates)
  {
    forall p | p in EdgesOf(candidates) ensures p in PairSet(pairs) {
      var c :| c in candidates && p == (c.u, c.v);
      var i :| 0 <= i < |candidates| && candidates[i] == c;
      assert pairs[i] == p;
    }
    forall p | p in PairSet(pairs) ensures p in EdgesOf(candidates) {
      var i :| 0 <= i < |pairs| && pairs[i] == p;
      assert candidates[i] in candidates;
    }
  }

  lemma {:induction false} CandidatesKnown(b: Banding, rows: seq<Doc>, buckets: Buckets, maxSize: int, nodes: seq<int>,
                                           pairs: seq<(int, int)>)
    requires BucketsOf(b, rows, buckets) && PairSet(pairs) == RawPairs(buckets, maxSize)
    requires |nodes| == |rows| && forall i :: 0 <= i < |rows| ==> nodes[i] == rows[i].node
    ensures KnownPairs(nodes, pairs)
  {
    forall p | p in pairs ensures p.0 in nodes && p.1 in nodes {
      assert p in RawPairs(buckets, maxSize);
      var key :| key in buckets && p in PairsOf(buckets[key], maxSize);
      assert Holds(buckets, key, p.0) && Holds(buckets, key, p.1);
      var i :| 0 <= i < |rows| && FallsInto(b, rows[i], key, p.0);
      var j :| 0 <= j < |rows| && FallsInto(b, rows[j], key, p.1);
      assert nodes[i] == p.0 && nodes[j] == p.1;
    }
  }

  lemma {:induction false} SameComponentsSameRow(buckets: Buckets, maxSize: int, nodes: seq<int>, row: Annotated)
    requires RowOk(RawPairs(buckets, maxSize), nodes, row)
    ensures RowOk(Collisions(buckets), nodes, row)
  {
    ComponentsIgnoreBucketLimit(buckets, maxSize, row.node, row.component);
    forall v | v in nodes && Connected(Collisions(buckets), row.node, v) ensures row.component <= v {
      ComponentsIgnoreBucketLimit(buckets, maxSize, row.node, v);
    }
  }

  lemma {:induction false} SameComponentsSameRows(buckets: Buckets, maxSize: int, nodes: seq<int>, rows: seq<Annotated>)
    requires RowsOk(RawPairs(buckets, maxSize), nodes, rows)
    ensures RowsOk(Collisions(buckets), nodes, rows)
  {
    forall i | 0 <= i < |nodes| ensures RowOk(Collisions(buckets), nodes, rows[i]) {
      SameComponentsSameRow(buckets, maxSize, nodes, rows[i]);
    }
  }
}
