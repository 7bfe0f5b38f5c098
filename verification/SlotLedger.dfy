/**
  Who holds which physical slot.  A slot is free, ready for one authority, or
  active under one lease; between leaving one place and reaching the next it is
  in hand.  Each move of the admission protocol is one removal followed by one
  placement.
*/
module SlotLedger {
  import opened Wrappers
  import opened Sequences

  datatype Ledger<!A, !L> = Ledger(
    slots: nat,
    closed: bool,
    available: seq<nat>,
    ready: map<A, nat>,
    active: map<L, nat>)

  ghost predicate Injective<K>(m: map<K, nat>) {
    forall j, k :: j in m && k in m && j != k ==> m[j] != m[k]
  }

  ghost predicate Held<A, L>(v: Ledger<A, L>, n: nat) {
    n in v.available || n in v.ready.Values || n in v.active.Values
  }

  // No slot has two holders.
  ghost predicate Apart<A, L>(v: Ledger<A, L>) {
    && Distinct(v.available)
    && Injective(v.ready)
    && Injective(v.active)
    && (forall n :: n in v.available ==> n !in v.ready.Values && n !in v.active.Values)
    && v.ready.Values !! v.active.Values
  }

  // Slots in circulation are 0 .. slots-1; while the pool is open none but
  // the one in hand is missing.
  ghost predicate Conserved<A, L>(v: Ledger<A, L>, inHand: Option<nat>) {
    && Apart(v)
    && (forall n: nat :: Held(v, n) ==> n < v.slots)
    && (inHand.Some? ==> inHand.value < v.slots && !Held(v, inHand.value))
    && (!v.closed ==> forall n: nat :: n < v.slots && inHand != Some(n) ==> Held(v, n))
  }

  lemma {:induction false} RemoveAvailable<A, L>(v: Ledger<A, L>)
    requires Conserved(v, None) && v.available != []
    ensures Conserved(v.(available := v.available[1..]), Some(v.available[0]))
  {
    var w := v.(available := v.available[1..]);
    assert Held(v, v.available[0]);
    assert forall n :: n in v.available <==> n == v.available[0] || n in w.available;
    assert forall n: nat :: n != v.available[0] ==> (Held(w, n) <==> Held(v, n));
  }

  lemma {:induction false} RemoveReady<A, L>(v: Ledger<A, L>, a: A)
    requires Conserved(v, None) && a in v.ready
    ensures Conserved(v.(ready := v.ready - {a}), Some(v.ready[a]))
  {
    var w := v.(ready := v.ready - {a});
    assert Held(v, v.ready[a]);
    RemovedValues(v.ready, a);
    assert forall n: nat :: n != v.ready[a] ==> (Held(w, n) <==> Held(v, n));
  }

  lemma {:induction false} RemoveActive<A, L>(v: Ledger<A, L>, l: L)
    requires Conserved(v, None) && l in v.active
    ensures Conserved(v.(active := v.active - {l}), Some(v.active[l]))
  {
    var w := v.(active := v.active - {l});
    assert Held(v, v.active[l]);
    RemovedValues(v.active, l);
    assert forall n: nat :: n != v.active[l] ==> (Held(w, n) <==> Held(v, n));
  }

  lemma {:induction false} RemovedValues<K>(m: map<K, nat>, k: K)
    requires Injective(m) && k in m
    ensures (m - {k}).Values == m.Values - {m[k]}
    ensures Injective(m - {k})
  {
    var r := m - {k};
    forall n | n in m.Values && n != m[k] ensures n in r.Values {
      var j :| j in m && m[j] == n;
      assert r[j] == n;
    }
  }

  lemma {:induction false} AddedValues<K>(m: map<K, nat>, k: K, n: nat)
    requires Injective(m) && k !in m && n !in m.Values
    ensures m[k := n].Values == m.Values + {n}
    ensures Injective(m[k := n])
  {
    var r := m[k := n];
    assert r[k] == n;
    forall x | x in m.Values ensures x in r.Values {
      var j :| j in m && m[j] == x;
      assert r[j] == x;
    }
    forall j | j in m ensures m[j] != n {
      assert m[j] in m.Values;
    }
  }

  lemma {:induction false} PlaceAvailable<A, L>(v: Ledger<A, L>, slot: nat)
    requires Conserved(v, Some(slot))
    ensures Conserved(v.(available := v.available + [slot]), None)
  {
    var w := v.(available := v.available + [slot]);
    assert w.available[|v.available|] == slot;
    assert forall n :: n in w.available <==> n == slot || n in v.available;
    assert forall n: nat :: Held(w, n) <==> Held(v, n) || n == slot;
  }

  lemma {:induction false} PlaceReady<A, L>(v: Ledger<A, L>, a: A, slot: nat)
    requires Conserved(v, Some(slot)) && a !in v.ready
    ensures Conserved(v.(ready := v.ready[a := slot]), None)
  {
    var w := v.(ready := v.ready[a := slot]);
    AddedValues(v.ready, a, slot);
    assert forall n: nat :: Held(w, n) <==> Held(v, n) || n == slot;
  }

  lemma {:induction false} PlaceActive<A, L>(v: Ledger<A, L>, l: L, slot: nat)
    requires Conserved(v, Some(slot)) && l !in v.active
    ensures Conserved(v.(active := v.active[l := slot]), None)
  {
    var w := v.(active := v.active[l := slot]);
    AddedValues(v.active, l, slot);
    assert forall n: nat :: Held(w, n) <==> Held(v, n) || n == slot;
  }

  // Closing the pool forgets the free and the ready slots.
  lemma {:induction false} CloseKeepsConserved<A, L>(v: Ledger<A, L>)
    requires Conserved(v, None)
    ensures Conserved(v.(closed := true, available := [], ready := map[]), None)
  {
    var w := v.(closed := true, available := [], ready := map[]);
    assert forall n: nat :: Held(w, n) ==> Held(v, n);
  }

  ghost function Upto(n: nat): (r: set<nat>)
    ensures |r| == n
    ensures forall i: nat :: i in r <==> i < n
  {
    if n == 0 then {} else Upto(n - 1) + {n - 1}
  }

  ghost function Elements(q: seq<nat>): (r: set<nat>)
    ensures forall n: nat :: n in r <==> n in q
    ensures Distinct(q) ==> |r| == |q|
  {
    if q == [] then {}
    else
      assert forall n :: n in q <==> n == q[0] || n in q[1..];
      {q[0]} + Elements(q[1..])
  }

  /** An open ledger partitions exactly the slots 0 .. slots-1. */
  lemma {:induction false} OpenLedgerPartitions<A, L>(v: Ledger<A, L>)
    requires Conserved(v, None) && !v.closed
    ensures Elements(v.available) !! v.ready.Values !! v.active.Values
    ensures Elements(v.available) + v.ready.Values + v.active.Values == Upto(v.slots)
    ensures |v.available| + |v.ready| + |v.active| == v.slots
  {
    var free, ready, active := Elements(v.available), v.ready.Values, v.active.Values;
    forall n: nat ensures n in free + ready + active <==> n in Upto(v.slots) {
      assert Held(v, n) <==> n in free + ready + active;
    }
    InjectiveSize(v.ready);
    InjectiveSize(v.active);
    ThreePartSize(free, ready, active, Upto(v.slots));
  }

  lemma {:induction false} ThreePartSize(x: set<nat>, y: set<nat>, z: set<nat>, all: set<nat>)
    requires x !! y !! z
    requires forall n: nat :: n in x + y + z <==> n in all
    ensures x + y + z == all
    ensures |x| + |y| + |z| == |all|
  {
    assert x + y + z == all;
  }

  lemma {:induction false} InjectiveSize<K>(m: map<K, nat>)
    requires Injective(m)
    ensures |m.Values| == |m|
    decreases |m|
  {
    if |m| == 0 {
      assert m == map[];
    } else {
      var k :| k in m;
      RemovedValues(m, k);
      assert m == (m - {k})[k := m[k]];
      InjectiveSize(m - {k});
      assert m.Values == (m - {k}).Values + {m[k]};
    }
  }
}
