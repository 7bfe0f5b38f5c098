/**
  A simple account of the admission protocol.  The outstanding requests stand in
  one queue in the order they were made and the slots not under lease in another,
  in the order they came free; the request at a place is served exactly when
  there is a slot at the same place.  Every run of the pool's steps replies and
  wakes as this account says.
*/
module SlotDesk {
  import opened Wrappers
  import opened Sequences
  import opened SlotAdmission
  import opened SlotRuns

  datatype Ask = Ask(owner: Authority, retained: int, number: nat)

  datatype Desk = Desk(
    asked: seq<Ask>,
    free: seq<nat>,
    held: map<LeaseId, Holding>,
    numbers: map<Authority, nat>,
    open: set<Authority>,
    closed: bool)

  ghost function PlaceOf(asked: seq<Ask>, a: Authority): (i: nat)
    ensures i <= |asked| && (i < |asked| ==> asked[i].owner == a)
    ensures forall j :: 0 <= j < i ==> asked[j].owner != a
  {
    if asked == [] || asked[0].owner == a then 0 else 1 + PlaceOf(asked[1..], a)
  }

  ghost predicate Waits(d: Desk, a: Authority) {
    |d.free| <= PlaceOf(d.asked, a) < |d.asked|
  }

  ghost predicate Served(d: Desk, a: Authority) {
    PlaceOf(d.asked, a) < |d.asked| && PlaceOf(d.asked, a) < |d.free|
  }

  ghost function Number(d: Desk, a: Authority): nat {
    if a in d.numbers then d.numbers[a] else 0
  }

  // ----- The desk -----------------------------------------------------------

  ghost function Ordered(d: Desk, a: Authority, retained: int): Desk {
    d.(asked := d.asked + [Ask(a, retained, Number(d, a) + 1)], numbers := d.numbers[a := Number(d, a) + 1])
  }

  // A request and its slot leave their queues together.
  ghost function Collected(d: Desk, a: Authority, lease: LeaseId): Desk
    requires Served(d, a)
  {
    var i := PlaceOf(d.asked, a);
    d.(asked := Cut(d.asked, i), free := Cut(d.free, i), held := d.held[lease := Holding(d.free[i], a)])
  }

  // A slot given back is the last to be used again.
  ghost function Returned(d: Desk, lease: LeaseId): Desk
    requires lease in d.held
  {
    d.(held := d.held - {lease}, free := if d.closed then d.free else d.free + [d.held[lease].slot])
  }

  ghost function Left(d: Desk, a: Authority): Desk {
    var i := PlaceOf(d.asked, a);
    d.(open := d.open - {a},
       asked := if i < |d.asked| then Cut(d.asked, i) else d.asked,
       free := if Served(d, a) then Cut(d.free, i) + [d.free[i]] else d.free)
  }

  ghost function Serve(d: Desk, e: Event): Desk {
    match e
    case Create(a) => if d.closed then d else d.(open := d.open + {a}, numbers := d.numbers[a := 0])
    case Register(_, _) => d
    case Request(a, n) => if n >= 0 && a in d.open && PlaceOf(d.asked, a) == |d.asked| then Ordered(d, a, n) else d
    case Take(a, n, lease) =>
      if Served(d, a) && d.asked[PlaceOf(d.asked, a)].retained == n then Collected(d, a, lease) else d
    case Release(lease) => if lease in d.held then Returned(d, lease) else d
    case CloseAuthority(a) => if a in d.open then Left(d, a) else d
    case ClosePool => d.(asked := [], free := [], open := {}, closed := true)
  }

  ghost function ReplyTo(prefix: string, d: Desk, e: Event): Reply {
    match e
    case Create(_) => if d.closed then Raised(PoolClosed) else Done
    case Request(a, n) =>
      if n < 0 then Raised(NegativeRetained)
      else if a !in d.open then Raised(AuthorityClosed)
      else Accepted(PlaceOf(d.asked, a) == |d.asked|)
    case Take(a, n, lease) =>
      var i := PlaceOf(d.asked, a);
      if !Served(d, a) then Raised(NotReady)
      else if d.asked[i].retained != n then Raised(RetainedMismatch)
      else Leased(LocalRequest(prefix, d.asked[i].number), n, lease, d.free[i])
    case _ => Done
  }

  ghost function FreshDesk(slots: nat): Desk {
    Desk([], AllSlots(slots), map[], map[], {}, false)
  }

  ghost function ServeAll(d: Desk, es: seq<Event>): Desk
    decreases |es|
  {
    if es == [] then d else ServeAll(Serve(d, es[0]), es[1..])
  }

  // A callback runs when its owner's request is served after waiting, and for
  // whoever is still there when the pool closes.
  ghost predicate Calls(d: Desk, past: seq<Event>, e: Event, w: Wakeup) {
    && LastRegistered(past, w.owner) == Some(w.callback)
    && if e == ClosePool then w.owner in d.open else Waits(d, w.owner) && Served(Serve(d, e), w.owner)
  }

  // ----- The pool keeps the desk --------------------------------------------

  ghost function ReadyCount(s: PoolState, d: Desk): int {
    |d.asked| - |s.waiters|
  }

  // The request at place i as its authority knows it.
  ghost predicate AskKept(s: PoolState, d: Desk, i: nat)
    requires i < |d.asked| && 0 <= ReadyCount(s, d) <= |d.free|
  {
    var ask, ready := d.asked[i], ReadyCount(s, d);
    && ask.owner in s.live && ask.owner in s.auth && ask.number == Number(d, ask.owner)
    && var st := s.auth[ask.owner];
       && st.retained == ask.retained && st.requestId == LocalRequest(s.prefix, ask.number)
       && if i < ready then st.phase == Ready && st.readySlot == Some(d.free[i])
          else st.phase == Requested && s.waiters[i - ready] == ask.owner
  }

  ghost predicate QueuesKept(s: PoolState, d: Desk) {
    var ready := ReadyCount(s, d);
    && 0 <= ready <= |d.free| && s.available == d.free[ready..]
    && (s.waiters != [] ==> ready == |d.free|)
  }

  ghost predicate AsksKept(s: PoolState, d: Desk) {
    && QueuesKept(s, d)
    && (forall i :: 0 <= i < |d.asked| ==> AskKept(s, d, i))
    && (forall i, j :: 0 <= i < j < |d.asked| ==> d.asked[i].owner != d.asked[j].owner)
  }

  ghost predicate OpenKept(s: PoolState, d: Desk, a: Authority) {
    a in s.auth && s.auth[a].sequence == Number(d, a) && (s.auth[a].phase == Idle <==> PlaceOf(d.asked, a) == |d.asked|)
  }

  ghost predicate Tied(s: PoolState, d: Desk) {
    && d.open == s.live && d.closed == s.closed && d.held == s.active && AsksKept(s, d)
    && (forall a :: a in s.live ==> OpenKept(s, d, a))
  }

  lemma {:induction false} FreshTied(prefix: string, slots: nat)
    ensures Tied(FreshPool(prefix, slots), FreshDesk(slots))
  {
  }

  // Whether an authority is served can be read off the pool.
  lemma {:induction false} PhaseTold(s: PoolState, d: Desk, a: Authority)
    requires Inv(s) && Tied(s, d)
    ensures Waits(d, a) <==> a in s.auth && s.auth[a].phase == Requested
    ensures Served(d, a) <==> a in s.auth && s.auth[a].phase == Ready
  {
    var i := PlaceOf(d.asked, a);
    if i < |d.asked| {
      assert AskKept(s, d, i);
    } else if a in s.live {
      assert OpenKept(s, d, a);
    }
  }

  lemma {:induction false} ReplyAgrees(s: PoolState, d: Desk, e: Event)
    requires Inv(s) && Enabled(s, e) && Tied(s, d)
    ensures Step(s, e).reply == ReplyTo(s.prefix, d, e)
  {
    if e.Request? && e.a in s.live {
      assert OpenKept(s, d, e.a);
    }
    if e.Take? {
      PhaseTold(s, d, e.a);
      if Served(d, e.a) {
        assert AskKept(s, d, PlaceOf(d.asked, e.a));
      }
    }
    if Frees(s, e) {
      FreeingStep(s, e);
    }
  }

  // ----- Every step keeps pool and desk together ----------------------------

  lemma {:induction false} PlaceOfNew(asked: seq<Ask>, ask: Ask, a: Authority)
    ensures PlaceOf(asked + [ask], a) ==
            if PlaceOf(asked, a) < |asked| || ask.owner == a then PlaceOf(asked, a) else |asked| + 1
  {
    var longer, i := asked + [ask], PlaceOf(asked, a);
    assert forall j :: 0 <= j < |asked| ==> longer[j] == asked[j];
    assert longer[|asked|] == ask;
    if i < |asked| {
      assert longer[i].owner == a;
    }
  }

  lemma {:induction false} PlaceOfCut(asked: seq<Ask>, i: nat, a: Authority)
    requires i < |asked| && forall j, k :: 0 <= j < k < |asked| ==> asked[j].owner != asked[k].owner
    ensures asked[i].owner == a ==> PlaceOf(Cut(asked, i), a) == |asked| - 1
    ensures asked[i].owner != a ==> (PlaceOf(Cut(asked, i), a) == |asked| - 1 <==> PlaceOf(asked, a) == |asked|)
  {
    var p, q := PlaceOf(asked, a), PlaceOf(Cut(asked, i), a);
    if q < |asked| - 1 {
      assert Cut(asked, i)[q] == asked[if q < i then q else q + 1];
    }
    if p < |asked| && p != i {
      assert Cut(asked, i)[if p < i then p else p - 1] == asked[p];
    }
  }

  lemma {:induction false} RequestTied(s: PoolState, d: Desk, a: Authority, n: int)
    requires Inv(s) && a in s.auth && Tied(s, d)
    ensures Tied(Step(s, Request(a, n)).state, Serve(d, Request(a, n)))
  {
    if a in s.live {
      assert OpenKept(s, d, a);
    }
    if n >= 0 && a in s.live && s.auth[a].phase == Idle {
      NewAskOpen(s, d, a, n, Step(s, Request(a, n)).state);
      NewAskQueued(s, d, a, n);
    }
  }

  lemma {:induction false} NewAskQueued(s: PoolState, d: Desk, a: Authority, n: int)
    requires Inv(s) && a in s.live && s.auth[a].phase == Idle && n >= 0 && Tied(s, d)
    ensures AsksKept(Step(s, Request(a, n)).state, Ordered(d, a, n))
  {
    assert OpenKept(s, d, a);
    NewAskLast(s, d, a, n, Step(s, Request(a, n)).state);
  }

  lemma {:induction false} NewAskLast(s: PoolState, d: Desk, a: Authority, n: int, t: PoolState)
    requires Tied(s, d) && PlaceOf(d.asked, a) == |d.asked| && (s.waiters != [] ==> s.available == [])
    requires t.prefix == s.prefix && t.live == s.live && a in t.live && a in t.auth && t.auth == s.auth[a := t.auth[a]]
    requires t.auth[a].retained == n && t.auth[a].requestId == LocalRequest(s.prefix, Number(d, a) + 1)
    requires if s.available == [] then
               t.available == [] && t.waiters == s.waiters + [a] && t.auth[a].phase == Requested
             else
               && t.available == s.available[1..] && t.waiters == s.waiters
               && t.auth[a].phase == Ready && t.auth[a].readySlot == Some(s.available[0])
    ensures AsksKept(t, Ordered(d, a, n))
  {
    var f := Ordered(d, a, n);
    AskersApart(d, a);
    if s.available != [] {
      assert d.free[ReadyCount(s, d)] == s.available[0];
    }
    forall i | 0 <= i < |d.asked| ensures AskKept(t, f, i) {
      EarlierAsk(s, d, a, n, t, i);
    }
    assert AskKept(t, f, |d.asked|);
  }

  // The requests already in the queue are not touched by a new one.
  lemma {:induction false} EarlierAsk(s: PoolState, d: Desk, a: Authority, n: int, t: PoolState, i: nat)
    requires Tied(s, d) && i < |d.asked| && d.asked[i].owner != a && QueuesKept(t, Ordered(d, a, n))
    requires t.prefix == s.prefix && t.live == s.live && a in t.auth && t.auth == s.auth[a := t.auth[a]]
    requires t.waiters == s.waiters || (t.waiters == s.waiters + [a] && s.available == [])
    requires t.waiters == s.waiters ==> s.waiters == []
    ensures AskKept(t, Ordered(d, a, n), i)
  {
    assert AskKept(s, d, i);
  }

  lemma {:induction false} AskersApart(d: Desk, a: Authority)
    requires PlaceOf(d.asked, a) == |d.asked|
    ensures forall i :: 0 <= i < |d.asked| ==> d.asked[i].owner != a
  {
  }

  lemma {:induction false} NewAskOpen(s: PoolState, d: Desk, a: Authority, n: int, t: PoolState)
    requires Tied(s, d) && a in s.live && a in t.auth && t.live == s.live && t.auth == s.auth[a := t.auth[a]]
    requires t.auth[a].phase != Idle && t.auth[a].sequence == s.auth[a].sequence + 1
    ensures forall b :: b in t.live ==> OpenKept(t, Ordered(d, a, n), b)
  {
    var f := Ordered(d, a, n);
    forall b | b in t.live ensures OpenKept(t, f, b) {
      assert OpenKept(s, d, a) && OpenKept(s, d, b);
      PlaceOfNew(d.asked, f.asked[|d.asked|], b);
    }
  }

  // A served request leaves with its slot, and its authority is idle or closed.
  lemma {:induction false} ServedLeaves(s: PoolState, d: Desk, a: Authority, t: PoolState, f: Desk)
    requires Tied(s, d) && Served(d, a) && a in s.auth && s.auth[a].phase == Ready
    requires var p := PlaceOf(d.asked, a);
             f.asked == Cut(d.asked, p) && f.free == Cut(d.free, p) && f.numbers == d.numbers
    requires f.open == t.live && f.closed == t.closed && f.held == t.active
    requires t.prefix == s.prefix && t.waiters == s.waiters && t.available == s.available
    requires a in t.auth && t.auth == s.auth[a := t.auth[a]] && t.auth[a].sequence == s.auth[a].sequence
    requires t.live == s.live - {a} || (t.live == s.live && t.auth[a].phase == Idle)
    ensures Tied(t, f)
  {
    var p := PlaceOf(d.asked, a);
    assert AskKept(s, d, p);
    LeaverQueues(s, d, p, t, f);
    CutApart(d.asked, p);
    forall i | 0 <= i < |f.asked| ensures AskKept(t, f, i) {
      LaterAsk(s, d, p, t, f, i);
    }
    LeaverOpen(s, d, p, t, f);
  }

  lemma {:induction false} CutApart(asked: seq<Ask>, p: nat)
    requires p < |asked| && forall i, j :: 0 <= i < j < |asked| ==> asked[i].owner != asked[j].owner
    ensures forall i, j :: 0 <= i < j < |Cut(asked, p)| ==> Cut(asked, p)[i].owner != Cut(asked, p)[j].owner
    ensures forall i :: 0 <= i < |Cut(asked, p)| ==> Cut(asked, p)[i].owner != asked[p].owner
  {
  }

  // A request that stays behind, after one at place p has left.
  lemma {:induction false} LaterAsk(s: PoolState, d: Desk, p: nat, t: PoolState, f: Desk, i: nat)
    requires AsksKept(s, d) && QueuesKept(t, f) && p < |d.asked| && i < |f.asked|
    requires f.asked == Cut(d.asked, p) && f.asked[i].owner != d.asked[p].owner && f.numbers == d.numbers
    requires t.prefix == s.prefix && t.live >= s.live - {d.asked[p].owner}
    requires var b := f.asked[i].owner; b in s.auth ==> b in t.auth && t.auth[b] == s.auth[b]
    requires if p < ReadyCount(s, d) then f.free == Cut(d.free, p) && t.waiters == s.waiters
             else f.free == d.free && t.waiters == Cut(s.waiters, p - ReadyCount(s, d))
    ensures AskKept(t, f, i)
  {
    assert AskKept(s, d, if i < p then i else i + 1);
  }

  lemma {:induction false} LeaverOpen(s: PoolState, d: Desk, p: nat, t: PoolState, f: Desk)
    requires Tied(s, d) && p < |d.asked| && f.asked == Cut(d.asked, p) && f.numbers == d.numbers
    requires var a := d.asked[p].owner;
             && a in s.auth && a in t.auth && t.auth.Keys == s.auth.Keys && t.live <= s.live
             && (forall b :: b in s.auth && b != a ==> t.auth[b] == s.auth[b])
             && (a in t.live ==> t.auth[a].phase == Idle && t.auth[a].sequence == s.auth[a].sequence)
    ensures forall b :: b in t.live ==> OpenKept(t, f, b)
  {
    forall b | b in t.live ensures OpenKept(t, f, b) {
      assert OpenKept(s, d, b);
      PlaceOfCut(d.asked, p, b);
    }
  }

  lemma {:induction false} LeaverQueues(s: PoolState, d: Desk, p: nat, t: PoolState, f: Desk)
    requires QueuesKept(s, d) && p < ReadyCount(s, d) && f.asked == Cut(d.asked, p) && f.free == Cut(d.free, p)
    requires t.waiters == s.waiters && t.available == s.available
    ensures QueuesKept(t, f)
  {
    var ready := ReadyCount(s, d);
    assert f.free[ready - 1..] == d.free[ready..];
  }

  lemma {:induction false} CollectTied(s: PoolState, d: Desk, a: Authority, lease: LeaseId, t: PoolState)
    requires Tied(s, d) && Served(d, a) && a in s.auth && s.auth[a].phase == Ready && a in t.auth
    requires t == s.(active := s.active[lease := Holding(d.free[PlaceOf(d.asked, a)], a)],
                     auth := s.auth[a := t.auth[a]])
    requires t.auth[a].phase == Idle && t.auth[a].sequence == s.auth[a].sequence
    ensures Tied(t, Collected(d, a, lease))
  {
    ServedLeaves(s, d, a, t, Collected(d, a, lease));
  }

  lemma {:induction false} TakeTied(s: PoolState, d: Desk, a: Authority, n: int, lease: LeaseId)
    requires Inv(s) && a in s.auth && lease !in s.active && Tied(s, d)
    ensures Tied(Step(s, Take(a, n, lease)).state, Serve(d, Take(a, n, lease)))
  {
    PhaseTold(s, d, a);
    if Served(d, a) {
      assert AskKept(s, d, PlaceOf(d.asked, a));
      if d.asked[PlaceOf(d.asked, a)].retained == n {
        CollectTied(s, d, a, lease, Step(s, Take(a, n, lease)).state);
      }
    }
  }

  // What the desk knows about an authority.
  ghost predicate Alike(x: AuthorityState, y: AuthorityState) {
    && x.phase == y.phase && x.requestId == y.requestId && x.retained == y.retained
    && x.readySlot == y.readySlot && x.sequence == y.sequence
  }

  // The queues stay, and authorities without a request come and go.
  lemma {:induction false} SameDesk(s: PoolState, d: Desk, t: PoolState, f: Desk)
    requires Tied(s, d) && f.asked == d.asked && f.free == d.free
    requires f.open == t.live && f.closed == t.closed && f.held == t.active
    requires t.prefix == s.prefix && t.waiters == s.waiters && t.available == s.available
    requires forall a {:trigger PlaceOf(d.asked, a)} :: PlaceOf(d.asked, a) < |d.asked| && a in s.live ==> a in t.live
    requires forall a :: a in t.live ==>
               && a in t.auth
               && (a in s.live ==> a in s.auth && Alike(t.auth[a], s.auth[a]) && Number(f, a) == Number(d, a))
               && (a !in s.live ==> Alike(t.auth[a], FRESH_AUTHORITY) && Number(f, a) == 0 &&
                                    PlaceOf(d.asked, a) == |d.asked|)
    ensures Tied(t, f)
  {
    forall i | 0 <= i < |f.asked| ensures AskKept(t, f, i) {
      assert AskKept(s, d, i);
      assert PlaceOf(d.asked, d.asked[i].owner) <= i;
    }
    forall a | a in t.live ensures OpenKept(t, f, a) {
      assert a in s.live ==> OpenKept(s, d, a);
    }
  }

  // A slot in hand goes to the back of the free slots, which is where the first
  // waiting request stands if there is one.
  lemma {:induction false} AssignTied(m: PoolState, d: Desk, slot: nat)
    requires PhasesOk(m) && QueueOk(m) && Tied(m, d)
    ensures Tied(AssignSlot(m, slot).state, if d.closed then d else d.(free := d.free + [slot]))
  {
    var t := AssignSlot(m, slot).state;
    AssignOutcome(m, slot);
    if m.waiters != [] {
      assert m.waiters[0] in m.live;
      GrantTied(m, d, slot, t);
    } else if !m.closed {
      SlotBackTied(m, d, slot);
    }
  }

  lemma {:induction false} GrantTied(m: PoolState, d: Desk, slot: nat, t: PoolState)
    requires Tied(m, d) && m.waiters != [] && m.waiters[0] in m.auth && m.auth[m.waiters[0]].phase == Requested
    requires var a := m.waiters[0];
             t == m.(waiters := m.waiters[1..],
                     auth := m.auth[a := m.auth[a].(readySlot := Some(slot), phase := Ready)])
    ensures Tied(t, d.(free := d.free + [slot]))
  {
    var f, ready := d.(free := d.free + [slot]), ReadyCount(m, d);
    assert AskKept(m, d, ready);
    forall i | 0 <= i < |f.asked| ensures AskKept(t, f, i) {
      assert AskKept(m, d, i);
      assert i != ready ==> d.asked[i].owner != d.asked[ready].owner;
    }
    forall b | b in t.live ensures OpenKept(t, f, b) {
      assert OpenKept(m, d, b);
    }
  }

  lemma {:induction false} SlotBackTied(m: PoolState, d: Desk, slot: nat)
    requires Tied(m, d) && m.waiters == []
    ensures Tied(m.(available := m.available + [slot]), d.(free := d.free + [slot]))
  {
    var t, f := m.(available := m.available + [slot]), d.(free := d.free + [slot]);
    assert f.free[ReadyCount(m, d)..] == t.available;
    forall i | 0 <= i < |f.asked| ensures AskKept(t, f, i) {
      assert AskKept(m, d, i);
    }
    forall b | b in t.live ensures OpenKept(t, f, b) {
      assert OpenKept(m, d, b);
    }
  }

  lemma {:induction false} DropTied(s: PoolState, d: Desk, lease: LeaseId)
    requires Inv(s) && Tied(s, d) && lease in s.active
    ensures Tied(DropLease(s, lease), d.(held := d.held - {lease}))
  {
    SameDesk(s, d, DropLease(s, lease), d.(held := d.held - {lease}));
  }

  lemma {:induction false} ReleaseTied(s: PoolState, d: Desk, lease: LeaseId)
    requires Inv(s) && Tied(s, d)
    ensures Tied(Step(s, Release(lease)).state, Serve(d, Release(lease)))
  {
    if lease in s.active {
      DropTied(s, d, lease);
      DropLeaseKeepsRest(s, lease);
      AssignTied(DropLease(s, lease), d.(held := d.held - {lease}), s.active[lease].slot);
    }
  }

  // The desk after a served authority has left with its slot.
  ghost function WithoutServed(d: Desk, a: Authority): Desk
    requires Served(d, a)
  {
    var p := PlaceOf(d.asked, a);
    d.(open := d.open - {a}, asked := Cut(d.asked, p), free := Cut(d.free, p))
  }

  lemma {:induction false} RetireTied(s: PoolState, d: Desk, a: Authority)
    requires Inv(s) && a in s.auth && s.auth[a].phase == Ready && Tied(s, d) && Served(d, a)
    ensures Tied(Retire(s, a), WithoutServed(d, a))
    ensures s.auth[a].readySlot == Some(d.free[PlaceOf(d.asked, a)])
  {
    assert AskKept(s, d, PlaceOf(d.asked, a));
    ServedLeaves(s, d, a, Retire(s, a), WithoutServed(d, a));
  }

  lemma {:induction false} ServedIsOpen(s: PoolState, d: Desk, a: Authority)
    requires Inv(s) && Tied(s, d) && Served(d, a)
    ensures a in d.open && !d.closed
  {
    assert AskKept(s, d, PlaceOf(d.asked, a));
  }

  lemma {:induction false} CloseReadyTied(s: PoolState, d: Desk, a: Authority)
    requires Inv(s) && a in s.auth && s.auth[a].phase == Ready && Tied(s, d)
    ensures Tied(Step(s, CloseAuthority(a)).state, Serve(d, CloseAuthority(a)))
  {
    PhaseTold(s, d, a);
    ServedIsOpen(s, d, a);
    RetireTied(s, d, a);
    RetiredAssignTied(s, d, a, WithoutServed(d, a), s.auth[a].readySlot.value);
  }

  lemma {:induction false} RetiredAssignTied(s: PoolState, d: Desk, a: Authority, f: Desk, slot: nat)
    requires Inv(s) && a in s.auth && s.auth[a].phase == Ready && s.auth[a].readySlot == Some(slot)
    requires Tied(Retire(s, a), f) && !f.closed
    ensures Tied(Step(s, CloseAuthority(a)).state, f.(free := f.free + [slot]))
  {
    RetireKeepsRest(s, a);
    CloseReadyIsRetireThenAssign(s, a);
    AssignTied(Retire(s, a), f, slot);
  }

  // A waiting request leaves both queues it stands in.
  lemma {:induction false} WaiterLeaves(s: PoolState, d: Desk, a: Authority, t: PoolState, f: Desk)
    requires Tied(s, d) && Waits(d, a) && a in s.auth && ReadyCount(s, d) <= PlaceOf(d.asked, a)
    requires f == d.(open := d.open - {a}, asked := Cut(d.asked, PlaceOf(d.asked, a)))
    requires t == s.(waiters := Cut(s.waiters, PlaceOf(d.asked, a) - ReadyCount(s, d)), live := s.live - {a},
                     auth := s.auth[a := Retired(s.auth[a])])
    ensures Tied(t, f)
  {
    var p := PlaceOf(d.asked, a);
    CutApart(d.asked, p);
    forall i | 0 <= i < |f.asked| ensures AskKept(t, f, i) {
      LaterAsk(s, d, p, t, f, i);
    }
    LeaverOpen(s, d, p, t, f);
  }

  lemma {:induction false} CloseWaitingTied(s: PoolState, d: Desk, a: Authority)
    requires Inv(s) && a in s.auth && s.auth[a].phase == Requested && Tied(s, d)
    ensures Tied(Step(s, CloseAuthority(a)).state, Serve(d, CloseAuthority(a)))
  {
    var p := PlaceOf(d.asked, a);
    PhaseTold(s, d, a);
    assert AskKept(s, d, p);
    WithoutAt(s.waiters, p - ReadyCount(s, d));
    WaiterLeaves(s, d, a, Step(s, CloseAuthority(a)).state, Serve(d, CloseAuthority(a)));
  }

  lemma {:induction false} CloseIdleTied(s: PoolState, d: Desk, a: Authority)
    requires Inv(s) && a in s.auth && (s.auth[a].phase == Idle || s.auth[a].phase == Closed) && Tied(s, d)
    ensures Tied(Step(s, CloseAuthority(a)).state, Serve(d, CloseAuthority(a)))
  {
    PhaseTold(s, d, a);
    assert PlaceOf(d.asked, a) == |d.asked|;
    SameDesk(s, d, Step(s, CloseAuthority(a)).state, Serve(d, CloseAuthority(a)));
  }

  lemma {:induction false} CreateTied(s: PoolState, d: Desk, a: Authority)
    requires Inv(s) && a !in s.auth && Tied(s, d)
    ensures Tied(Step(s, Create(a)).state, Serve(d, Create(a)))
  {
    PhaseTold(s, d, a);
    assert PlaceOf(d.asked, a) == |d.asked|;
    SameDesk(s, d, Step(s, Create(a)).state, Serve(d, Create(a)));
  }

  lemma {:induction false} RegisterTied(s: PoolState, d: Desk, a: Authority, callback: Callback)
    requires Inv(s) && a in s.auth && Tied(s, d)
    ensures Tied(Step(s, Register(a, callback)).state, d)
  {
    SameDesk(s, d, Step(s, Register(a, callback)).state, d);
  }

  /** Each step of the pool is the step of the desk. */
  lemma {:induction false} StepTied(s: PoolState, d: Desk, e: Event)
    requires Inv(s) && Enabled(s, e) && Tied(s, d)
    ensures Tied(Step(s, e).state, Serve(d, e))
  {
    match e
    case Create(a) => CreateTied(s, d, a);
    case Register(a, callback) => RegisterTied(s, d, a, callback);
    case Request(a, n) => RequestTied(s, d, a, n);
    case Take(a, n, lease) => TakeTied(s, d, a, n, lease);
    case Release(lease) => ReleaseTied(s, d, lease);
    case CloseAuthority(a) =>
      if s.auth[a].phase == Ready {
        CloseReadyTied(s, d, a);
      } else if s.auth[a].phase == Requested {
        CloseWaitingTied(s, d, a);
      } else {
        CloseIdleTied(s, d, a);
      }
    case ClosePool => PoolClosedTied(s, d);
  }

  lemma {:induction false} AskersLive(s: PoolState, d: Desk)
    requires Tied(s, d)
    ensures s.live == {} ==> d.asked == [] && s.waiters == [] && d.free == s.available
  {
    if d.asked != [] {
      assert AskKept(s, d, 0);
    } else {
      assert d.free[0..] == d.free;
    }
  }

  lemma {:induction false} PoolClosedTied(s: PoolState, d: Desk)
    requires Inv(s) && Tied(s, d)
    ensures Tied(Step(s, ClosePool).state, Serve(d, ClosePool))
  {
    AskersLive(s, d);
  }

  // ----- Whole runs ---------------------------------------------------------

  lemma {:induction false} CallsAgree(s: PoolState, d: Desk, past: seq<Event>, e: Event, w: Wakeup)
    requires Inv(s) && Enabled(s, e) && Tied(s, d) && Remembers(s, past)
    ensures Step(s, e).fired[w] == if Calls(d, past, e, w) then 1 else 0
  {
    StepFiresWhatIsOwed(s, past, e, w);
    StepKeepsInv(s, e);
    StepTied(s, d, e);
    PhaseTold(s, d, w.owner);
    PhaseTold(Step(s, e).state, Serve(d, e), w.owner);
  }

  // Every step replies, and fires the wakeup `w`, as the desk says.
  ghost predicate RunsAs(s: PoolState, d: Desk, past: seq<Event>, es: seq<Event>, w: Wakeup)
    requires Inv(s) && Legal(s, es)
    decreases |es|
  {
    es == [] ||
    (&& Step(s, es[0]).reply == ReplyTo(s.prefix, d, es[0])
     && Step(s, es[0]).fired[w] == (if Calls(d, past, es[0], w) then 1 else 0)
     && (StepKeepsInv(s, es[0]); RunsAs(Step(s, es[0]).state, Serve(d, es[0]), past + [es[0]], es[1..], w)))
  }

  lemma {:induction false} TiedRunsAs(s: PoolState, d: Desk, past: seq<Event>, es: seq<Event>, w: Wakeup)
    requires Inv(s) && Legal(s, es) && Tied(s, d) && Remembers(s, past)
    ensures RunsAs(s, d, past, es, w)
    decreases |es|
  {
    if es != [] {
      StepKeepsInv(s, es[0]);
      ReplyAgrees(s, d, es[0]);
      CallsAgree(s, d, past, es[0], w);
      StepTied(s, d, es[0]);
      StepRemembers(s, past, es[0]);
      TiedRunsAs(Step(s, es[0]).state, Serve(d, es[0]), past + [es[0]], es[1..], w);
    }
  }

  /** Every interleaving of a new pool's steps replies and wakes exactly as the
      two queues say. */
  lemma {:induction false} PoolRunsAsDesk(prefix: string, slots: nat, es: seq<Event>, w: Wakeup)
    requires Legal(FreshPool(prefix, slots), es)
    ensures RunsAs(FreshPool(prefix, slots), FreshDesk(slots), [], es, w)
  {
    FreshTied(prefix, slots);
    TiedRunsAs(FreshPool(prefix, slots), FreshDesk(slots), [], es, w);
  }

  lemma {:induction false} RunTied(s: PoolState, d: Desk, es: seq<Event>)
    requires Inv(s) && Legal(s, es) && Tied(s, d)
    ensures Tied(Run(s, es), ServeAll(d, es))
    decreases |es|
  {
    if es != [] {
      StepKeepsInv(s, es[0]);
      StepTied(s, d, es[0]);
      RunTied(Step(s, es[0]).state, Serve(d, es[0]), es[1..]);
    }
  }

  /** After every interleaving of a new pool's steps an authority waits or is
      ready exactly when its request stands beyond or within the free slots. */
  lemma {:induction false} PhasesAfterRun(prefix: string, slots: nat, es: seq<Event>, a: Authority)
    requires Legal(FreshPool(prefix, slots), es)
    ensures var s, d := Run(FreshPool(prefix, slots), es), ServeAll(FreshDesk(slots), es);
            && (Waits(d, a) <==> a in s.auth && s.auth[a].phase == Requested)
            && (Served(d, a) <==> a in s.auth && s.auth[a].phase == Ready)
  {
    FreshTied(prefix, slots);
    RunTied(FreshPool(prefix, slots), FreshDesk(slots), es);
    PhaseTold(Run(FreshPool(prefix, slots), es), ServeAll(FreshDesk(slots), es), a);
  }
}
