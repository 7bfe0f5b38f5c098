/**
  What holds over every interleaving of the admission steps: slots are conserved,
  grants are first come, first served, no wakeup is lost, waiting is bounded, and
  closing is final.
*/
module SlotRuns {
  import opened Wrappers
  import opened Sequences
  import opened SlotLedger
  import opened SlotAdmission

  // ----- Whole runs ---------------------------------------------------------

  ghost predicate Legal(s: PoolState, es: seq<Event>)
    requires Inv(s)
    decreases |es|
  {
    es == [] ||
    (Enabled(s, es[0]) && (StepKeepsInv(s, es[0]); Legal(Step(s, es[0]).state, es[1..])))
  }

  ghost function Run(s: PoolState, es: seq<Event>): (t: PoolState)
    requires Inv(s) && Legal(s, es)
    ensures Inv(t)
    decreases |es|
  {
    if es == [] then s
    else
      StepKeepsInv(s, es[0]);
      Run(Step(s, es[0]).state, es[1..])
  }

  // The events that take a slot from its holder.
  ghost predicate Frees(s: PoolState, e: Event) {
    match e
    case Release(lease) => lease in s.active
    case CloseAuthority(a) => a in s.auth && s.auth[a].phase == Ready
    case _ => false
  }

  // The state in which the freed slot is in hand.
  ghost function Emptied(s: PoolState, e: Event): PoolState
    requires Inv(s) && Frees(s, e)
  {
    if e.Release? then DropLease(s, e.lease) else Retire(s, e.a)
  }

  ghost function FreedSlot(s: PoolState, e: Event): nat
    requires Inv(s) && Frees(s, e)
  {
    if e.Release? then s.active[e.lease].slot else s.auth[e.a].readySlot.value
  }

  // A freed slot goes to the head of the queue, which leaves it. With no waiter
  // it goes to the back of the free slots, or nowhere once the pool is closed,
  // and nobody's phase but that of a closing authority changes.
  lemma {:induction false} FreeingStep(s: PoolState, e: Event)
    requires Inv(s) && Enabled(s, e) && Frees(s, e)
    ensures var o, m := Step(s, e), Emptied(s, e);
            && m.waiters == s.waiters && m.auth.Keys == s.auth.Keys && o.state.live == m.live
            && (s.waiters == [] ==> o.fired == multiset{} && o.state.auth == m.auth && o.state.waiters == [])
            && (s.waiters == [] && !s.closed ==> o.state.available == s.available + [FreedSlot(s, e)])
            && (s.closed ==> o.state.available == [])
            && (s.waiters != [] ==>
                  var a := s.waiters[0];
                  && o.state.available == s.available
                  && a in s.auth && s.auth[a].phase == Requested
                  && !(e.CloseAuthority? && e.a == a)
                  && o.state.waiters == s.waiters[1..]
                  && o.state.auth == m.auth[a := m.auth[a].(readySlot := Some(FreedSlot(s, e)), phase := Ready)]
                  && o.fired == WakeupOf(a, s.auth[a].wakeup))
  {
    FreeingIsAssign(s, e);
    AssignOutcome(Emptied(s, e), FreedSlot(s, e));
    if s.waiters != [] {
      assert s.waiters[0] in s.waiters;
    }
  }

  // A freeing step passes on the slot it has in hand.
  lemma {:induction false} FreeingIsAssign(s: PoolState, e: Event)
    requires Inv(s) && Enabled(s, e) && Frees(s, e)
    ensures QueueOk(Emptied(s, e)) && Step(s, e) == AssignSlot(Emptied(s, e), FreedSlot(s, e))
  {
    if e.Release? {
      DropLeaseKeepsRest(s, e.lease);
    } else {
      RetireKeepsRest(s, e.a);
      CloseReadyIsRetireThenAssign(s, e.a);
    }
  }

  lemma {:induction false} AssignOutcome(m: PoolState, slot: nat)
    requires QueueOk(m)
    ensures var o := AssignSlot(m, slot);
            && o.state.live == m.live
            && (m.waiters == [] ==> o.fired == multiset{} && o.state.auth == m.auth && o.state.waiters == [])
            && o.state.available == (if m.waiters == [] && !m.closed then m.available + [slot] else m.available)
            && (m.waiters != [] ==>
                  var a := m.waiters[0];
                  && a in m.auth && m.auth[a].phase == Requested
                  && o.state.waiters == m.waiters[1..]
                  && o.state.auth == m.auth[a := m.auth[a].(readySlot := Some(slot), phase := Ready)]
                  && o.fired == WakeupOf(a, m.auth[a].wakeup))
  {
    if m.waiters != [] {
      assert m.waiters[0] in m.waiters;
    }
  }

  ghost predicate Granted(s: PoolState, t: PoolState, a: Authority) {
    && a in s.auth && s.auth[a].phase == Requested
    && a in t.auth && t.auth[a].phase == Ready
  }

  /** Only the longest waiting authority is ever granted, and by a freed slot. */
  lemma {:induction false} GrantsAreFifo(s: PoolState, e: Event, a: Authority)
    requires Inv(s) && Enabled(s, e)
    ensures Granted(s, Step(s, e).state, a) <==> Frees(s, e) && s.waiters != [] && a == s.waiters[0]
    ensures Granted(s, Step(s, e).state, a) ==> Step(s, e).state.waiters == s.waiters[1..]
  {
    if Frees(s, e) {
      FreeingStep(s, e);
    }
  }

  lemma {:induction false} StepKeepsSlots(s: PoolState, e: Event)
    requires Inv(s) && Enabled(s, e)
    ensures Step(s, e).state.slots == s.slots
  {
    if s.waiters != [] {
      assert s.waiters[0] in s.waiters;
    }
    if Frees(s, e) {
      FreeingStep(s, e);
    }
  }

  lemma {:induction false} RunKeepsSlots(s: PoolState, es: seq<Event>)
    requires Inv(s) && Legal(s, es)
    ensures Run(s, es).slots == s.slots
    decreases |es|
  {
    if es != [] {
      StepKeepsInv(s, es[0]);
      StepKeepsSlots(s, es[0]);
      RunKeepsSlots(Step(s, es[0]).state, es[1..]);
    }
  }

  /** In every state an interleaving can reach while the pool is open, the free
      slots, the ready slots and the slots under active leases are pairwise
      disjoint and together are exactly the pool's slots. */
  lemma {:induction false} EveryRunConservesSlots(prefix: string, slots: nat, es: seq<Event>)
    requires Legal(FreshPool(prefix, slots), es)
    requires !Run(FreshPool(prefix, slots), es).closed
    ensures var v := LedgerOf(Run(FreshPool(prefix, slots), es));
            && Elements(v.available) !! v.ready.Values !! v.active.Values
            && Elements(v.available) + v.ready.Values + v.active.Values == Upto(slots)
            && |v.available| + |v.ready| + |v.active| == slots
  {
    RunKeepsSlots(FreshPool(prefix, slots), es);
    OpenLedgerPartitions(LedgerOf(Run(FreshPool(prefix, slots), es)));
  }

  // ----- No wakeup is lost --------------------------------------------------

  // The callback an authority registered last since it was created, by the
  // events alone.
  ghost function LastRegistered(past: seq<Event>, a: Authority): Option<Callback> {
    if past == [] then None
    else
      var e := past[|past| - 1];
      if e == Create(a) then None
      else if e.Register? && e.a == a then Some(e.callback)
      else LastRegistered(past[..|past| - 1], a)
  }

  // Every live authority remembers the callback it registered last.
  ghost predicate Remembers(s: PoolState, past: seq<Event>) {
    forall a :: a in s.live ==> a in s.auth && s.auth[a].wakeup == LastRegistered(past, a)
  }

  lemma {:induction false} StepRemembers(s: PoolState, past: seq<Event>, e: Event)
    requires Inv(s) && Enabled(s, e) && Remembers(s, past)
    ensures Remembers(Step(s, e).state, past + [e])
  {
    var t := Step(s, e).state;
    forall a | a in t.live ensures a in t.auth && t.auth[a].wakeup == LastRegistered(past + [e], a) {
      assert (past + [e])[..|past|] == past;
      WakeupKept(s, e, a);
    }
  }

  // Only its own registration changes the callback of a live authority.
  lemma {:induction false} WakeupKept(s: PoolState, e: Event, a: Authority)
    requires Inv(s) && Enabled(s, e) && a in Step(s, e).state.live
    ensures a in Step(s, e).state.auth
    ensures var after := Step(s, e).state.auth[a].wakeup;
            if e == Create(a) then after == None
            else if e.Register? && e.a == a then after == Some(e.callback)
            else a in s.live && after == s.auth[a].wakeup
  {
    if Frees(s, e) {
      FreeingKeepsWakeup(s, e, a);
    }
  }

  lemma {:induction false} FreeingKeepsWakeup(s: PoolState, e: Event, a: Authority)
    requires Inv(s) && Enabled(s, e) && Frees(s, e) && a in Step(s, e).state.live
    ensures a in s.live && a in Step(s, e).state.auth && Step(s, e).state.auth[a].wakeup == s.auth[a].wakeup
  {
    FreeingStep(s, e);
  }

  /** After every run each live authority holds the callback of its last
      registration. */
  lemma {:induction false} RunRemembers(s: PoolState, past: seq<Event>, es: seq<Event>)
    requires Inv(s) && Legal(s, es) && Remembers(s, past)
    ensures Remembers(Run(s, es), past + es)
    decreases |es|
  {
    if es == [] {
      assert past + es == past;
    } else {
      StepKeepsInv(s, es[0]);
      StepRemembers(s, past, es[0]);
      RunRemembers(Step(s, es[0]).state, past + [es[0]], es[1..]);
      Assoc(past, [es[0]], es[1..]);
      assert [es[0]] + es[1..] == es;
    }
  }

  // How often a step after the events `past` owes the wakeup `w`: if `w` was
  // registered last, once when its owner is granted a slot and once when the
  // pool closes under a live owner.
  ghost function Owed(s: PoolState, past: seq<Event>, e: Event, w: Wakeup): nat
    requires Inv(s) && Enabled(s, e)
  {
    if LastRegistered(past, w.owner) != Some(w.callback) then 0
    else if e.ClosePool? then (if w.owner in s.live then 1 else 0)
    else if Granted(s, Step(s, e).state, w.owner) then 1
    else 0
  }

  lemma {:induction false} StepFiresWhatIsOwed(s: PoolState, past: seq<Event>, e: Event, w: Wakeup)
    requires Inv(s) && Enabled(s, e) && Remembers(s, past)
    ensures Step(s, e).fired[w] == Owed(s, past, e, w)
  {
    GrantsAreFifo(s, e, w.owner);
    if Frees(s, e) {
      FreeingStep(s, e);
    }
  }

  ghost function Fired(s: PoolState, es: seq<Event>): multiset<Wakeup>
    requires Inv(s) && Legal(s, es)
    decreases |es|
  {
    if es == [] then multiset{}
    else
      StepKeepsInv(s, es[0]);
      Step(s, es[0]).fired + Fired(Step(s, es[0]).state, es[1..])
  }

  ghost function TotalOwed(s: PoolState, past: seq<Event>, es: seq<Event>, w: Wakeup): nat
    requires Inv(s) && Legal(s, es)
    decreases |es|
  {
    if es == [] then 0
    else
      StepKeepsInv(s, es[0]);
      Owed(s, past, es[0], w) + TotalOwed(Step(s, es[0]).state, past + [es[0]], es[1..], w)
  }

  lemma {:induction false} FiredAfter(s: PoolState, past: seq<Event>, es: seq<Event>, w: Wakeup)
    requires Inv(s) && Legal(s, es) && Remembers(s, past)
    ensures Fired(s, es)[w] == TotalOwed(s, past, es, w)
    decreases |es|
  {
    if es != [] {
      StepKeepsInv(s, es[0]);
      StepFiresWhatIsOwed(s, past, es[0], w);
      StepRemembers(s, past, es[0]);
      FiredAfter(Step(s, es[0]).state, past + [es[0]], es[1..], w);
    }
  }

  /** Over any run of a new pool each grant and the pool's close schedule the
      callback registered last exactly once, and nothing else is ever scheduled. */
  lemma {:induction false} NoWakeupLost(prefix: string, slots: nat, es: seq<Event>, w: Wakeup)
    requires Legal(FreshPool(prefix, slots), es)
    ensures Fired(FreshPool(prefix, slots), es)[w] == TotalOwed(FreshPool(prefix, slots), [], es, w)
  {
    FiredAfter(FreshPool(prefix, slots), [], es, w);
  }

  // ----- Waiting is bounded -------------------------------------------------

  lemma {:induction false} WithoutPlace(q: seq<Authority>, b: Authority, k: nat) returns (p: nat)
    requires k < |q| && q[k] != b
    ensures p <= k && p < |Without(q, b)| && Without(q, b)[p] == q[k]
  {
    if k == 0 {
      p := 0;
    } else {
      p := WithoutPlace(q[1..], b, k - 1);
      if q[0] != b {
        p := p + 1;
      }
    }
  }

  /** A waiter that stays in the queue never moves back, and each freed slot
      moves it one place forward. */
  lemma {:induction false} StepKeepsPlace(s: PoolState, e: Event, k: nat) returns (p: nat)
    requires Inv(s) && Enabled(s, e) && k < |s.waiters|
    requires var a := s.waiters[k]; a in Step(s, e).state.auth && Step(s, e).state.auth[a].phase == Requested
    ensures p < |Step(s, e).state.waiters| && Step(s, e).state.waiters[p] == s.waiters[k]
    ensures p + (if Frees(s, e) then 1 else 0) <= k
  {
    if Frees(s, e) {
      FreeingStep(s, e);
      p := k - 1;
    } else if e.CloseAuthority? && s.auth[e.a].phase == Requested {
      p := WithoutPlace(s.waiters, e.a, k);
    } else {
      OpenWhileRequested(s, e, s.waiters[k]);
      QueueOnlyGrows(s, e);
      p := k;
    }
  }

  lemma {:induction false} OpenWhileRequested(s: PoolState, e: Event, a: Authority)
    requires Inv(s) && Enabled(s, e) && a in s.waiters
    requires a in Step(s, e).state.auth && Step(s, e).state.auth[a].phase == Requested
    ensures !e.ClosePool?
  {
    assert a in s.live;
  }

  // A step that frees no slot and closes nobody in the queue leaves the queue as a
  // prefix of the new one.
  lemma {:induction false} QueueOnlyGrows(s: PoolState, e: Event)
    requires Inv(s) && Enabled(s, e) && !Frees(s, e) && !e.ClosePool?
    requires !(e.CloseAuthority? && s.auth[e.a].phase == Requested)
    ensures s.waiters <= Step(s, e).state.waiters
  {
  }

  ghost function FreedSlots(s: PoolState, es: seq<Event>): nat
    requires Inv(s) && Legal(s, es)
    decreases |es|
  {
    if es == [] then 0
    else
      StepKeepsInv(s, es[0]);
      (if Frees(s, es[0]) then 1 else 0) + FreedSlots(Step(s, es[0]).state, es[1..])
  }

  ghost predicate EverReady(s: PoolState, es: seq<Event>, a: Authority)
    requires Inv(s) && Legal(s, es)
    decreases |es|
  {
    (a in s.auth && s.auth[a].phase == Ready) ||
    (es != [] && (StepKeepsInv(s, es[0]); EverReady(Step(s, es[0]).state, es[1..], a)))
  }

  // A requested authority leaves that phase only by a grant or a close.
  lemma {:induction false} RequestedUntilGranted(s: PoolState, e: Event, a: Authority)
    requires Inv(s) && Enabled(s, e) && a in s.auth && s.auth[a].phase == Requested
    requires e != CloseAuthority(a) && e != ClosePool
    ensures a in Step(s, e).state.auth
    ensures Step(s, e).state.auth[a].phase == Requested || Step(s, e).state.auth[a].phase == Ready
  {
    if Frees(s, e) {
      FreeingStep(s, e);
    }
  }

  /** The waiter at position k is ready after at most k+1 freed slots, unless
      it or the pool is closed. */
  lemma {:induction false} ReadyWithinFreedSlots(s: PoolState, es: seq<Event>, k: nat)
    requires Inv(s) && Legal(s, es) && k < |s.waiters|
    requires FreedSlots(s, es) > k
    requires forall i :: 0 <= i < |es| ==> es[i] != CloseAuthority(s.waiters[k]) && es[i] != ClosePool
    ensures EverReady(s, es, s.waiters[k])
    decreases |es|
  {
    var a, e := s.waiters[k], es[0];
    assert a in s.waiters;
    StepKeepsInv(s, e);
    var t := Step(s, e).state;
    RequestedUntilGranted(s, e, a);
    if t.auth[a].phase == Requested {
      var p := StepKeepsPlace(s, e, k);
      ReadyWithinFreedSlots(t, es[1..], p);
    }
  }

  // ----- Closing is final ---------------------------------------------------

  lemma {:induction false} ClosedStep(s: PoolState, e: Event)
    requires Inv(s) && s.closed && Enabled(s, e)
    ensures Step(s, e).state.closed && !Step(s, e).reply.Leased?
    ensures Step(s, e).state.active.Keys <= s.active.Keys
    ensures forall l :: l in Step(s, e).state.active ==> Step(s, e).state.active[l] == s.active[l]
  {
    if e.CloseAuthority? || e.Take? || e.Request? {
      assert s.auth[e.a].phase == Closed;
    }
  }

  /** After the pool closes, only leases already active hold slots, and they
      are only ever given up. */
  lemma {:induction false} ClosedIsFinal(s: PoolState, es: seq<Event>)
    requires Inv(s) && s.closed && Legal(s, es)
    ensures var v := LedgerOf(Run(s, es));
            v.closed && v.available == [] && v.ready == map[] && v.active.Keys <= s.active.Keys
    decreases |es|
  {
    if es == [] {
      assert LedgerOf(s).ready == map[];
    } else {
      StepKeepsInv(s, es[0]);
      ClosedStep(s, es[0]);
      ClosedIsFinal(Step(s, es[0]).state, es[1..]);
    }
  }

  // ----- From snapshot to lease ---------------------------------------------

  ghost predicate LeavesReady(e: Event, a: Authority) {
    e != CloseAuthority(a) && e != ClosePool && !(e.Take? && e.a == a)
  }

  // A step that frees no slot changes at most the callback of an authority with
  // a request, unless it is about that request.
  lemma {:induction false} AskedStays(s: PoolState, e: Event, a: Authority)
    requires Inv(s) && Enabled(s, e) && !Frees(s, e) && LeavesReady(e, a)
    requires a in s.auth && (s.auth[a].phase == Requested || s.auth[a].phase == Ready)
    ensures a in Step(s, e).state.auth
    ensures Step(s, e).state.auth[a] == s.auth[a].(wakeup := Step(s, e).state.auth[a].wakeup)
  {
  }

  lemma {:induction false} ReadyStep(s: PoolState, e: Event, a: Authority)
    requires Inv(s) && Enabled(s, e) && a in s.auth && s.auth[a].phase == Ready && LeavesReady(e, a)
    ensures a in Step(s, e).state.auth
    ensures var st := Step(s, e).state.auth[a];
            st.phase == Ready && st.readySlot == s.auth[a].readySlot && st.retained == s.auth[a].retained &&
            st.requestId == s.auth[a].requestId
  {
    if Frees(s, e) {
      FreeingStep(s, e);
    } else {
      AskedStays(s, e, a);
    }
  }

  /** The executor reads the retained bytes and takes the lease under two
      separate lock acquisitions.  Whatever other threads do in between, short
      of taking or closing this authority or the pool, the take yields the slot
      and request that were ready at the snapshot. */
  lemma {:induction false} SnapshotThenTake(s: PoolState, es: seq<Event>, a: Authority, lease: LeaseId)
    requires Inv(s) && Legal(s, es) && a in s.auth && s.auth[a].phase == Ready
    requires forall i :: 0 <= i < |es| ==> LeavesReady(es[i], a)
    requires lease !in Run(s, es).active
    ensures a in Run(s, es).auth
    ensures Step(Run(s, es), Take(a, s.auth[a].retained, lease)).reply
         == Leased(s.auth[a].requestId, s.auth[a].retained, lease, s.auth[a].readySlot.value)
    decreases |es|
  {
    if es != [] {
      StepKeepsInv(s, es[0]);
      ReadyStep(s, es[0], a);
      SnapshotThenTake(Step(s, es[0]).state, es[1..], a, lease);
    }
  }

  // ----- From request to lease ----------------------------------------------

  ghost predicate Asked(s: PoolState, a: Authority, n: int, number: nat) {
    && a in s.auth && (s.auth[a].phase == Requested || s.auth[a].phase == Ready)
    && s.auth[a].retained == n && s.auth[a].requestId == LocalRequest(s.prefix, number)
  }

  lemma {:induction false} AskedStep(s: PoolState, e: Event, a: Authority, n: int, number: nat)
    requires Inv(s) && Enabled(s, e) && Asked(s, a, n, number) && LeavesReady(e, a)
    ensures Asked(Step(s, e).state, a, n, number) && Step(s, e).state.prefix == s.prefix
  {
    StepKeepsPrefix(s, e);
    if Frees(s, e) {
      FreeingStep(s, e);
    } else {
      AskedStays(s, e, a);
    }
  }

  lemma {:induction false} StepKeepsPrefix(s: PoolState, e: Event)
    requires Inv(s) && Enabled(s, e)
    ensures Step(s, e).state.prefix == s.prefix
  {
    if Frees(s, e) {
      FreeingIsAssign(s, e);
      AssignKeepsPrefix(Emptied(s, e), FreedSlot(s, e));
    }
  }

  lemma {:induction false} AssignKeepsPrefix(m: PoolState, slot: nat)
    requires QueueOk(m)
    ensures AssignSlot(m, slot).state.prefix == m.prefix
  {
    if m.waiters != [] {
      assert m.waiters[0] in m.waiters;
    }
  }

  lemma {:induction false} AskedRun(s: PoolState, es: seq<Event>, a: Authority, n: int, number: nat)
    requires Inv(s) && Legal(s, es) && Asked(s, a, n, number)
    requires forall i :: 0 <= i < |es| ==> LeavesReady(es[i], a)
    ensures Asked(Run(s, es), a, n, number) && Run(s, es).prefix == s.prefix
    decreases |es|
  {
    if es != [] {
      StepKeepsInv(s, es[0]);
      AskedStep(s, es[0], a, n, number);
      AskedRun(Step(s, es[0]).state, es[1..], a, n, number);
    }
  }

  ghost function AfterRequest(s: PoolState, a: Authority, n: int): (t: PoolState)
    requires Inv(s) && a in s.auth
    ensures Inv(t)
  {
    StepKeepsInv(s, Request(a, n));
    Step(s, Request(a, n)).state
  }

  /** A request for n bytes, once ready, is taken exactly with n bytes and under
      the next request number, whatever happens to others in between. */
  lemma {:induction false} RequestThenTake(s: PoolState, a: Authority, n: nat, es: seq<Event>, m: int, lease: LeaseId)
    requires Inv(s) && a in s.auth && s.auth[a].phase == Idle && Legal(AfterRequest(s, a, n), es)
    requires forall i :: 0 <= i < |es| ==> LeavesReady(es[i], a)
    requires lease !in Run(AfterRequest(s, a, n), es).active
    ensures a in Run(AfterRequest(s, a, n), es).auth
    ensures var t := Run(AfterRequest(s, a, n), es);
            Step(t, Take(a, m, lease)).reply ==
            if t.auth[a].readySlot == None then Raised(NotReady)
            else if m != n then Raised(RetainedMismatch)
            else Leased(LocalRequest(s.prefix, s.auth[a].sequence + 1), n, lease, t.auth[a].readySlot.value)
  {
    assert a in s.live && !s.closed;
    AskedRun(AfterRequest(s, a, n), es, a, n, s.auth[a].sequence + 1);
  }
}
