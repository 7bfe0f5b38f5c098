/**
  Admission of UDF tasks to a shared pool of physical execution slots.

  Every block the source runs under the pool lock is one atomic step.  `Step`
  gives the effect of each such block on a value and keeps the invariant; the
  classes at the end perform the same blocks on mutable objects and are proved
  to follow `Step`.  The wakeup callbacks that the source invokes after leaving
  the lock are reported as the `fired` part of a step.
*/
module SlotAdmission {
  import opened Wrappers
  import opened Sequences
  import opened SlotLedger
  import opened Handover
  import opened Texts

  // Identity of a wakeup callable handed over by the dispatcher.
  type Callback = nat

  type LeaseId = string

  datatype Phase = Idle | Requested | Ready | Closed

  datatype RequestId = NoRequest | LocalRequest(prefix: string, sequence: nat)

  datatype Error = NegativeRetained | AuthorityClosed | PoolClosed | NotReady | RetainedMismatch |
                   NonPositiveSlots | EmptyPrefix | NoPool | PoolAndSlots

  // What the lock protects about one authority.
  datatype AuthorityState = AuthorityState(
    phase: Phase,
    requestId: RequestId,
    retained: int,
    readySlot: Option<nat>,
    sequence: nat,
    wakeup: Option<Callback>,
    leases: set<LeaseId>)

  const FRESH_AUTHORITY := AuthorityState(Idle, NoRequest, 0, None, 0, None, {})

  datatype Holding = Holding(slot: nat, owner: Authority)

  datatype PoolState = PoolState(
    prefix: string,
    slots: nat,
    available: seq<nat>,
    active: map<LeaseId, Holding>,
    waiters: seq<Authority>,
    live: set<Authority>,
    closed: bool,
    auth: map<Authority, AuthorityState>)

  datatype Wakeup = Wakeup(owner: Authority, callback: Callback)

  datatype Event =
    | Create(a: Authority)
    | Register(a: Authority, callback: Callback)
    | Request(a: Authority, retained: int)
    | Take(a: Authority, retained: int, lease: LeaseId)
    | Release(lease: LeaseId)
    | CloseAuthority(a: Authority)
    | ClosePool

  datatype Reply =
    | Raised(error: Error)
    | Done
    | Accepted(now: bool)
    | Leased(requestId: RequestId, retained: int, lease: LeaseId, slot: nat)

  datatype Outcome = Outcome(state: PoolState, fired: multiset<Wakeup>, reply: Reply)

  // ----- The atomic steps ---------------------------------------------------

  ghost function WakeupOf(a: Authority, w: Option<Callback>): multiset<Wakeup> {
    if w.Some? then multiset{Wakeup(a, w.value)} else multiset{}
  }

  ghost function Retired(st: AuthorityState): AuthorityState {
    st.(phase := Closed, requestId := NoRequest, retained := 0, readySlot := None, wakeup := None)
  }

  ghost function Grant(s: PoolState, a: Authority, slot: nat): Outcome
    requires a in s.auth
  {
    Outcome(s.(auth := s.auth[a := s.auth[a].(readySlot := Some(slot), phase := Ready)]),
            WakeupOf(a, s.auth[a].wakeup), Done)
  }

  // A freed slot goes to the first waiter that still wants one, else back to
  // the pool, else (pool closed) nowhere.
  ghost function AssignSlot(s: PoolState, slot: nat): (o: Outcome)
    requires forall a :: a in s.waiters ==> a in s.auth
    ensures o.state.auth.Keys == s.auth.Keys
    decreases |s.waiters|
  {
    if s.waiters != [] then
      var a := s.waiters[0];
      var rest := s.(waiters := s.waiters[1..]);
      if s.auth[a].phase != Requested then
        AssignSlot(rest, slot)
      else
        Grant(rest, a, slot)
    else if !s.closed then
      Outcome(s.(available := s.available + [slot]), multiset{}, Done)
    else
      Outcome(s, multiset{}, Done)
  }

  ghost function StepRequest(s: PoolState, a: Authority, retained: int): Outcome
    requires a in s.auth
  {
    var st := s.auth[a];
    if retained < 0 then
      Outcome(s, multiset{}, Raised(NegativeRetained))
    else if st.phase == Closed || s.closed then
      Outcome(s, multiset{}, Raised(AuthorityClosed))
    else if st.phase != Idle then
      Outcome(s, multiset{}, Accepted(false))
    else
      var asked := st.(sequence := st.sequence + 1,
                       requestId := LocalRequest(s.prefix, st.sequence + 1),
                       retained := retained);
      if s.available != [] then
        Outcome(s.(auth := s.auth[a := asked.(readySlot := Some(s.available[0]), phase := Ready)],
                   available := s.available[1..]),
                multiset{}, Accepted(true))
      else
        Outcome(s.(auth := s.auth[a := asked.(phase := Requested)], waiters := s.waiters + [a]),
                multiset{}, Accepted(true))
  }

  ghost function StepTake(s: PoolState, a: Authority, retained: int, lease: LeaseId): Outcome
    requires a in s.auth
  {
    var st := s.auth[a];
    if st.phase != Ready || st.readySlot == None then
      Outcome(s, multiset{}, Raised(NotReady))
    else if retained != st.retained then
      Outcome(s, multiset{}, Raised(RetainedMismatch))
    else
      Outcome(s.(active := s.active[lease := Holding(st.readySlot.value, a)],
                 auth := s.auth[a := st.(leases := st.leases + {lease}, phase := Idle,
                                         requestId := NoRequest, retained := 0, readySlot := None)]),
              multiset{}, Leased(st.requestId, retained, lease, st.readySlot.value))
  }

  ghost function StepRelease(s: PoolState, lease: LeaseId): Outcome
    requires Inv(s)
  {
    if lease !in s.active then
      Outcome(s, multiset{}, Done)
    else
      AssignSlot(DropLease(s, lease), s.active[lease].slot)
  }

  ghost function DropLease(s: PoolState, lease: LeaseId): PoolState
    requires lease in s.active && s.active[lease].owner in s.auth
  {
    var owner := s.active[lease].owner;
    s.(active := s.active - {lease},
       auth := s.auth[owner := s.auth[owner].(leases := s.auth[owner].leases - {lease})])
  }

  ghost function StepCloseAuthority(s: PoolState, a: Authority): Outcome
    requires a in s.auth
    requires forall b :: b in s.waiters ==> b in s.auth
  {
    if s.auth[a].phase == Closed then
      Outcome(s, multiset{}, Done)
    else
      var o :=
        if s.auth[a].phase == Requested then
          Outcome(s.(waiters := Without(s.waiters, a)), multiset{}, Done)
        else if s.auth[a].phase == Ready && s.auth[a].readySlot.Some? then
          AssignSlot(s, s.auth[a].readySlot.value)
        else
          Outcome(s, multiset{}, Done);
      Outcome(o.state.(auth := o.state.auth[a := Retired(o.state.auth[a])], live := o.state.live - {a}),
              o.fired, Done)
  }

  ghost function Notices(auth: map<Authority, AuthorityState>, live: set<Authority>): multiset<Wakeup>
    requires live <= auth.Keys
  {
    multiset(set a | a in live && auth[a].wakeup.Some? :: Wakeup(a, auth[a].wakeup.value))
  }

  ghost function StepClosePool(s: PoolState): Outcome
    requires s.live <= s.auth.Keys
  {
    if s.closed then
      Outcome(s, multiset{}, Done)
    else
      Outcome(s.(closed := true, waiters := [], available := [], live := {},
                 auth := map a | a in s.auth :: if a in s.live then Retired(s.auth[a]) else s.auth[a]),
              Notices(s.auth, s.live), Done)
  }

  // Lease ids are fresh and a created authority is new; nothing else is
  // asked of callers.
  ghost predicate Enabled(s: PoolState, e: Event) {
    match e
    case Create(a) => a !in s.auth
    case Register(a, _) => a in s.auth
    case Request(a, _) => a in s.auth
    case Take(a, _, lease) => a in s.auth && lease !in s.active
    case Release(_) => true
    case CloseAuthority(a) => a in s.auth
    case ClosePool => true
  }

  ghost function Step(s: PoolState, e: Event): Outcome
    requires Inv(s) && Enabled(s, e)
  {
    match e
    case Create(a) =>
      if s.closed then Outcome(s, multiset{}, Raised(PoolClosed))
      else Outcome(s.(live := s.live + {a}, auth := s.auth[a := FRESH_AUTHORITY]), multiset{}, Done)
    case Register(a, callback) =>
      Outcome(s.(auth := s.auth[a := s.auth[a].(wakeup := Some(callback))]), multiset{}, Done)
    case Request(a, retained) => StepRequest(s, a, retained)
    case Take(a, retained, lease) => StepTake(s, a, retained, lease)
    case Release(lease) => StepRelease(s, lease)
    case CloseAuthority(a) => StepCloseAuthority(s, a)
    case ClosePool => StepClosePool(s)
  }

  // ----- The invariant of every reachable state -----------------------------

  ghost predicate PhasesOk(s: PoolState) {
    && s.live <= s.auth.Keys
    && (forall a :: a in s.auth ==> (a in s.live <==> s.auth[a].phase != Closed))
    && (forall a :: a in s.auth ==> (s.auth[a].readySlot.Some? <==> s.auth[a].phase == Ready))
    && (s.closed ==> s.live == {} && s.available == [])
  }

  // The waiter queue holds exactly the requested authorities, once each, and
  // only while no slot is free.
  ghost predicate QueueOk(s: PoolState) {
    && Distinct(s.waiters)
    && (forall a :: a in s.waiters ==> a in s.auth && s.auth[a].phase == Requested)
    && (forall a :: a in s.auth && s.auth[a].phase == Requested ==> a in s.waiters)
    && (s.waiters != [] ==> s.available == [])
  }

  ghost predicate LeasesOk(s: PoolState) {
    && (forall l :: l in s.active ==> s.active[l].owner in s.auth && l in s.auth[s.active[l].owner].leases)
    && (forall a, l :: a in s.auth && l in s.auth[a].leases ==> l in s.active && s.active[l].owner == a)
  }

  ghost function ReadySlots(auth: map<Authority, AuthorityState>): map<Authority, nat> {
    map a | a in auth && auth[a].readySlot.Some? :: auth[a].readySlot.value
  }

  ghost function ActiveSlots(active: map<LeaseId, Holding>): map<LeaseId, nat> {
    map l | l in active :: active[l].slot
  }

  ghost function LedgerOf(s: PoolState): Ledger<Authority, LeaseId> {
    Ledger(s.slots, s.closed, s.available, ReadySlots(s.auth), ActiveSlots(s.active))
  }

  ghost predicate Inv(s: PoolState) {
    PhasesOk(s) && QueueOk(s) && LeasesOk(s) && Conserved(LedgerOf(s), None)
  }

  function AllSlots(slots: nat): (free: seq<nat>)
    ensures |free| == slots && forall i :: 0 <= i < slots ==> free[i] == i
  {
    seq(slots, i => i)
  }

  ghost function FreshPool(prefix: string, slots: nat): (s: PoolState)
    ensures Inv(s)
  {
    FreshPoolOk(prefix, slots);
    PoolState(prefix, slots, AllSlots(slots), map[], [], {}, false, map[])
  }

  lemma {:induction false} FreshPoolOk(prefix: string, slots: nat)
    ensures Inv(PoolState(prefix, slots, AllSlots(slots), map[], [], {}, false, map[]))
  {
    var v := LedgerOf(PoolState(prefix, slots, AllSlots(slots), map[], [], {}, false, map[]));
    forall n: nat | n < slots ensures Held(v, n) {
      assert v.available[n] == n;
    }
  }

  // ----- What a change of one authority or one lease does to the ledger -----

  lemma {:induction false} ReadyAfter(auth: map<Authority, AuthorityState>, a: Authority, st: AuthorityState)
    ensures ReadySlots(auth[a := st]) ==
            if st.readySlot.Some? then ReadySlots(auth)[a := st.readySlot.value] else ReadySlots(auth) - {a}
  {
  }

  // An authority whose ready slot stays the same leaves the ledger alone.
  lemma {:induction false} ReadyUnchanged(auth: map<Authority, AuthorityState>, a: Authority, st: AuthorityState)
    requires if a in auth then st.readySlot == auth[a].readySlot else st.readySlot == None
    ensures ReadySlots(auth[a := st]) == ReadySlots(auth)
  {
  }

  lemma {:induction false} ActiveAfterTake(active: map<LeaseId, Holding>, l: LeaseId, h: Holding)
    ensures ActiveSlots(active[l := h]) == ActiveSlots(active)[l := h.slot]
  {
  }

  lemma {:induction false} ActiveAfterDrop(active: map<LeaseId, Holding>, l: LeaseId)
    ensures ActiveSlots(active - {l}) == ActiveSlots(active) - {l}
  {
  }

  // ----- What a change of one authority leaves of the lease bookkeeping -----

  lemma {:induction false} LeasesKept(s: PoolState, t: PoolState, a: Authority)
    requires LeasesOk(s) && t.active == s.active && a in t.auth
    requires t.auth == s.auth[a := t.auth[a]]
    requires t.auth[a].leases == if a in s.auth then s.auth[a].leases else {}
    ensures LeasesOk(t)
  {
  }

  // The queue only looks at phases.
  lemma {:induction false} QueueKept(s: PoolState, t: PoolState, a: Authority)
    requires QueueOk(s) && t.waiters == s.waiters && a in t.auth && t.auth == s.auth[a := t.auth[a]]
    requires t.auth[a].phase != Requested && (a in s.auth ==> s.auth[a].phase != Requested)
    requires s.waiters != [] ==> t.available == []
    ensures QueueOk(t)
  {
  }

  lemma {:induction false} PhasesKept(s: PoolState, t: PoolState, a: Authority)
    requires PhasesOk(s) && a in t.auth && t.auth == s.auth[a := t.auth[a]] && t.closed == s.closed
    requires t.live == (if t.auth[a].phase == Closed then s.live - {a} else s.live + {a})
    requires t.auth[a].readySlot.Some? <==> t.auth[a].phase == Ready
    requires s.closed ==> t.auth[a].phase == Closed && t.available == []
    ensures PhasesOk(t)
  {
  }

  // ----- Every step keeps the invariant -------------------------------------

  ghost predicate InHand(s: PoolState, slot: nat) {
    PhasesOk(s) && QueueOk(s) && LeasesOk(s) && Conserved(LedgerOf(s), Some(slot))
  }

  // Under the queue discipline the first waiter is never skipped.
  lemma {:induction false} AssignSlotKeepsInv(s: PoolState, slot: nat)
    requires InHand(s, slot)
    ensures Inv(AssignSlot(s, slot).state)
  {
    var v := LedgerOf(s);
    if s.waiters != [] {
      var a := s.waiters[0];
      assert a in s.waiters;
      GrantLedger(s, slot);
      PlaceReady(v, a, slot);
      GrantKeepsRest(s, slot);
    } else if !s.closed {
      PlaceAvailable(v, slot);
    }
  }

  lemma {:induction false} GrantLedger(s: PoolState, slot: nat)
    requires QueueOk(s) && s.waiters != []
    ensures var v := LedgerOf(s);
            LedgerOf(AssignSlot(s, slot).state) == v.(ready := v.ready[s.waiters[0] := slot])
  {
    var a := s.waiters[0];
    assert a in s.waiters;
    ReadyAfter(s.auth, a, s.auth[a].(readySlot := Some(slot), phase := Ready));
  }

  lemma {:induction false} GrantKeepsRest(s: PoolState, slot: nat)
    requires PhasesOk(s) && QueueOk(s) && LeasesOk(s) && s.waiters != []
    ensures var t := AssignSlot(s, slot).state; PhasesOk(t) && QueueOk(t) && LeasesOk(t)
  {
    var a := s.waiters[0];
    var t := AssignSlot(s, slot).state;
    assert a in s.waiters;
    PhasesKept(s, t, a);
    GrantKeepsQueue(s, t, a);
    LeasesKept(s, t, a);
  }

  lemma {:induction false} GrantKeepsQueue(s: PoolState, t: PoolState, a: Authority)
    requires QueueOk(s) && s.waiters != [] && a == s.waiters[0]
    requires t.waiters == s.waiters[1..] && t.available == s.available
    requires a in t.auth && t.auth == s.auth[a := t.auth[a]] && t.auth[a].phase == Ready
    ensures QueueOk(t)
  {
    assert forall b :: b in s.waiters <==> b == a || b in s.waiters[1..];
  }

  lemma {:induction false} DropLeaseInHand(s: PoolState, lease: LeaseId)
    requires Inv(s) && lease in s.active
    ensures InHand(DropLease(s, lease), s.active[lease].slot)
  {
    DropLeaseLedger(s, lease);
    RemoveActive(LedgerOf(s), lease);
    DropLeaseKeepsRest(s, lease);
  }

  lemma {:induction false} DropLeaseLedger(s: PoolState, lease: LeaseId)
    requires lease in s.active && s.active[lease].owner in s.auth
    ensures var v := LedgerOf(s); LedgerOf(DropLease(s, lease)) == v.(active := v.active - {lease})
  {
    var owner := s.active[lease].owner;
    ReadyUnchanged(s.auth, owner, s.auth[owner].(leases := s.auth[owner].leases - {lease}));
    ActiveAfterDrop(s.active, lease);
  }

  lemma {:induction false} DropLeaseKeepsRest(s: PoolState, lease: LeaseId)
    requires PhasesOk(s) && QueueOk(s) && LeasesOk(s) && lease in s.active
    ensures var t := DropLease(s, lease); PhasesOk(t) && QueueOk(t) && LeasesOk(t)
  {
    DropLeaseKeepsLeases(s, lease);
    SamePhases(s, DropLease(s, lease));
  }

  lemma {:induction false} DropLeaseKeepsLeases(s: PoolState, lease: LeaseId)
    requires LeasesOk(s) && lease in s.active
    ensures LeasesOk(DropLease(s, lease))
  {
  }

  // A change that leaves phases, slots and the queue alone.
  lemma {:induction false} SamePhases(s: PoolState, t: PoolState)
    requires PhasesOk(s) && QueueOk(s)
    requires t.(active := s.active, auth := s.auth) == s && t.auth.Keys == s.auth.Keys
    requires forall a :: a in s.auth ==>
               t.auth[a].phase == s.auth[a].phase && t.auth[a].readySlot == s.auth[a].readySlot
    ensures PhasesOk(t) && QueueOk(t)
  {
  }

  ghost function Retire(s: PoolState, a: Authority): PoolState
    requires a in s.auth
  {
    s.(auth := s.auth[a := Retired(s.auth[a])], live := s.live - {a})
  }

  lemma {:induction false} RetireLedger(s: PoolState, a: Authority)
    requires a in s.auth
    ensures var v := LedgerOf(s); LedgerOf(Retire(s, a)) == v.(ready := v.ready - {a})
  {
    ReadyAfter(s.auth, a, Retired(s.auth[a]));
  }

  lemma {:induction false} RetireKeepsRest(s: PoolState, a: Authority)
    requires PhasesOk(s) && QueueOk(s) && LeasesOk(s) && a in s.auth && s.auth[a].phase != Requested
    ensures var t := Retire(s, a); PhasesOk(t) && QueueOk(t) && LeasesOk(t)
  {
    var t := Retire(s, a);
    PhasesKept(s, t, a);
    QueueKept(s, t, a);
    LeasesKept(s, t, a);
  }

  lemma {:induction false} RetireReadyInHand(s: PoolState, a: Authority)
    requires Inv(s) && a in s.auth && s.auth[a].phase == Ready
    ensures InHand(Retire(s, a), s.auth[a].readySlot.value)
  {
    RetireLedger(s, a);
    RemoveReady(LedgerOf(s), a);
    RetireKeepsRest(s, a);
  }

  // Passing the slot on and then retiring its holder is the same as retiring
  // the holder first.
  lemma {:induction false} CloseReadyIsRetireThenAssign(s: PoolState, a: Authority)
    requires QueueOk(s) && PhasesOk(s) && a in s.auth && s.auth[a].phase == Ready
    ensures forall b :: b in Retire(s, a).waiters ==> b in Retire(s, a).auth
    ensures StepCloseAuthority(s, a) == AssignSlot(Retire(s, a), s.auth[a].readySlot.value)
  {
    var slot := s.auth[a].readySlot.value;
    if s.waiters != [] {
      var w := s.waiters[0];
      assert w in s.waiters;
      var got := s.auth[w].(readySlot := Some(slot), phase := Ready);
      assert s.auth[w := got][a := Retired(s.auth[a])] == s.auth[a := Retired(s.auth[a])][w := got];
    }
  }

  lemma {:induction false} WithoutFacts(q: seq<Authority>, a: Authority)
    requires Distinct(q)
    ensures Distinct(Without(q, a)) && SameBut(q, Without(q, a), a)
  {
    if q != [] {
      WithoutFacts(q[1..], a);
      var r := Without(q[1..], a);
      assert q[0] !in q[1..];
      forall i | 0 <= i < |r| ensures r[i] != q[0] {
        assert r[i] in r;
      }
    }
  }

  ghost predicate SameBut(q: seq<Authority>, r: seq<Authority>, a: Authority) {
    && (forall b :: b in r ==> b in q && b != a)
    && (forall b :: b in q && b != a ==> b in r)
  }

  lemma {:induction false} RequestKeepsInv(s: PoolState, a: Authority, retained: int)
    requires Inv(s) && a in s.auth
    ensures Inv(StepRequest(s, a, retained).state)
  {
    if StepRequest(s, a, retained).reply == Accepted(true) {
      RequestMovesSlot(s, a, retained);
      RequestKeepsRest(s, a, retained);
    }
  }

  lemma {:induction false} RequestMovesSlot(s: PoolState, a: Authority, retained: int)
    requires Conserved(LedgerOf(s), None) && a in s.auth && s.auth[a].readySlot == None
    requires StepRequest(s, a, retained).reply == Accepted(true)
    ensures Conserved(LedgerOf(StepRequest(s, a, retained).state), None)
  {
    var v := LedgerOf(s);
    RequestLedger(s, a, retained);
    if s.available != [] {
      RemoveAvailable(v);
      PlaceReady(v.(available := v.available[1..]), a, s.available[0]);
    }
  }

  lemma {:induction false} RequestLedger(s: PoolState, a: Authority, retained: int)
    requires a in s.auth && s.auth[a].readySlot == None
    requires StepRequest(s, a, retained).reply == Accepted(true)
    ensures var v := LedgerOf(s);
            LedgerOf(StepRequest(s, a, retained).state) ==
            if s.available == [] then v
            else v.(available := v.available[1..], ready := v.ready[a := s.available[0]])
  {
    var st := StepRequest(s, a, retained).state.auth[a];
    if s.available == [] {
      ReadyUnchanged(s.auth, a, st);
    } else {
      ReadyAfter(s.auth, a, st);
    }
  }

  lemma {:induction false} RequestKeepsRest(s: PoolState, a: Authority, retained: int)
    requires PhasesOk(s) && QueueOk(s) && LeasesOk(s) && a in s.auth
    requires StepRequest(s, a, retained).reply == Accepted(true)
    ensures var t := StepRequest(s, a, retained).state; PhasesOk(t) && QueueOk(t) && LeasesOk(t)
  {
    var t := StepRequest(s, a, retained).state;
    assert a in s.live;
    PhasesKept(s, t, a);
    LeasesKept(s, t, a);
    if s.available == [] {
      JoinKeepsQueue(s, t, a);
    } else {
      QueueKept(s, t, a);
    }
  }

  lemma {:induction false} JoinKeepsQueue(s: PoolState, t: PoolState, a: Authority)
    requires QueueOk(s) && s.available == [] && t.available == []
    requires a in s.auth && s.auth[a].phase == Idle
    requires t.waiters == s.waiters + [a] && t.auth.Keys == s.auth.Keys
    requires t.auth[a].phase == Requested
    requires forall b :: b in s.auth && b != a ==> t.auth[b] == s.auth[b]
    ensures QueueOk(t)
  {
    assert a !in s.waiters;
    assert t.waiters[|s.waiters|] == a;
    assert forall b :: b in t.waiters <==> b in s.waiters || b == a;
  }

  lemma {:induction false} TakeKeepsInv(s: PoolState, a: Authority, retained: int, lease: LeaseId)
    requires Inv(s) && a in s.auth && lease !in s.active
    ensures Inv(StepTake(s, a, retained, lease).state)
  {
    if StepTake(s, a, retained, lease).reply.Leased? {
      TakeMovesSlot(s, a, retained, lease);
      TakeKeepsRest(s, a, retained, lease);
    }
  }

  lemma {:induction false} TakeMovesSlot(s: PoolState, a: Authority, retained: int, lease: LeaseId)
    requires Conserved(LedgerOf(s), None) && a in s.auth && lease !in s.active
    requires StepTake(s, a, retained, lease).reply.Leased?
    ensures Conserved(LedgerOf(StepTake(s, a, retained, lease).state), None)
  {
    var v := LedgerOf(s);
    TakeLedger(s, a, retained, lease);
    RemoveReady(v, a);
    PlaceActive(v.(ready := v.ready - {a}), lease, s.auth[a].readySlot.value);
  }

  lemma {:induction false} TakeLedger(s: PoolState, a: Authority, retained: int, lease: LeaseId)
    requires a in s.auth && StepTake(s, a, retained, lease).reply.Leased?
    ensures var v := LedgerOf(s);
            LedgerOf(StepTake(s, a, retained, lease).state) ==
            v.(ready := v.ready - {a}, active := v.active[lease := s.auth[a].readySlot.value])
  {
    ReadyAfter(s.auth, a, StepTake(s, a, retained, lease).state.auth[a]);
    ActiveAfterTake(s.active, lease, Holding(s.auth[a].readySlot.value, a));
  }

  lemma {:induction false} TakeKeepsRest(s: PoolState, a: Authority, retained: int, lease: LeaseId)
    requires PhasesOk(s) && QueueOk(s) && LeasesOk(s) && a in s.auth && lease !in s.active
    requires StepTake(s, a, retained, lease).reply.Leased?
    ensures var t := StepTake(s, a, retained, lease).state; PhasesOk(t) && QueueOk(t) && LeasesOk(t)
  {
    var t := StepTake(s, a, retained, lease).state;
    assert a in s.live;
    PhasesKept(s, t, a);
    QueueKept(s, t, a);
    TakeKeepsLeases(s, a, retained, lease);
  }

  lemma {:induction false} TakeKeepsLeases(s: PoolState, a: Authority, retained: int, lease: LeaseId)
    requires LeasesOk(s) && a in s.auth && lease !in s.active
    ensures LeasesOk(StepTake(s, a, retained, lease).state)
  {
  }

  lemma {:induction false} CloseAuthorityKeepsInv(s: PoolState, a: Authority)
    requires Inv(s) && a in s.auth
    ensures Inv(StepCloseAuthority(s, a).state)
  {
    match s.auth[a].phase
    case Closed =>
    case Ready =>
      RetireReadyInHand(s, a);
      CloseReadyIsRetireThenAssign(s, a);
      AssignSlotKeepsInv(Retire(s, a), s.auth[a].readySlot.value);
    case Requested => CloseRequestedKeepsInv(s, a);
    case Idle => CloseIdleKeepsInv(s, a);
  }

  lemma {:induction false} CloseIdleKeepsInv(s: PoolState, a: Authority)
    requires Inv(s) && a in s.auth && s.auth[a].phase == Idle
    ensures StepCloseAuthority(s, a).state == Retire(s, a) && Inv(Retire(s, a))
  {
    RetireKeepsRest(s, a);
    ReadyUnchanged(s.auth, a, Retired(s.auth[a]));
    assert LedgerOf(Retire(s, a)) == LedgerOf(s);
  }

  lemma {:induction false} CloseRequestedKeepsInv(s: PoolState, a: Authority)
    requires Inv(s) && a in s.auth && s.auth[a].phase == Requested
    ensures Inv(StepCloseAuthority(s, a).state)
  {
    var t := StepCloseAuthority(s, a).state;
    PhasesKept(s, t, a);
    LeaveKeepsQueue(s, t, a);
    LeasesKept(s, t, a);
    ReadyUnchanged(s.auth, a, Retired(s.auth[a]));
    assert LedgerOf(t) == LedgerOf(s);
  }

  lemma {:induction false} LeaveKeepsQueue(s: PoolState, t: PoolState, a: Authority)
    requires QueueOk(s) && t.waiters == Without(s.waiters, a) && t.available == s.available
    requires a in t.auth && t.auth == s.auth[a := t.auth[a]] && t.auth[a].phase == Closed
    ensures QueueOk(t)
  {
    WithoutFacts(s.waiters, a);
    if t.waiters != [] {
      assert t.waiters[0] in s.waiters;
    }
  }

  lemma {:induction false} ClosePoolKeepsInv(s: PoolState)
    requires Inv(s)
    ensures Inv(StepClosePool(s).state)
  {
    if !s.closed {
      ClosePoolLedger(s);
      CloseKeepsConserved(LedgerOf(s));
      ClosePoolKeepsRest(s);
    }
  }

  lemma {:induction false} ClosePoolLedger(s: PoolState)
    requires PhasesOk(s) && !s.closed
    ensures LedgerOf(StepClosePool(s).state) == LedgerOf(s).(closed := true, available := [], ready := map[])
  {
    assert ReadySlots(StepClosePool(s).state.auth) == map[];
  }

  lemma {:induction false} ClosePoolKeepsRest(s: PoolState)
    requires PhasesOk(s) && QueueOk(s) && LeasesOk(s) && !s.closed
    ensures var t := StepClosePool(s).state; PhasesOk(t) && QueueOk(t) && LeasesOk(t)
  {
    var t := StepClosePool(s).state;
    assert forall a :: a in t.auth ==> t.auth[a].phase == Closed;
    assert forall a :: a in t.auth ==> t.auth[a].leases == s.auth[a].leases;
  }

  lemma {:induction false} CreateKeepsInv(s: PoolState, a: Authority)
    requires Inv(s) && a !in s.auth
    ensures Inv(Step(s, Create(a)).state)
  {
    if !s.closed {
      var t := Step(s, Create(a)).state;
      PhasesKept(s, t, a);
      QueueKept(s, t, a);
      LeasesKept(s, t, a);
      ReadyUnchanged(s.auth, a, FRESH_AUTHORITY);
      assert LedgerOf(t) == LedgerOf(s);
    }
  }

  lemma {:induction false} RegisterKeepsInv(s: PoolState, a: Authority, callback: Callback)
    requires Inv(s) && a in s.auth
    ensures Inv(Step(s, Register(a, callback)).state)
  {
    var t := Step(s, Register(a, callback)).state;
    SamePhases(s, t);
    LeasesKept(s, t, a);
    ReadyUnchanged(s.auth, a, t.auth[a]);
    assert LedgerOf(t) == LedgerOf(s);
  }

  /** Slot conservation and queue discipline survive every atomic step. */
  lemma {:induction false} StepKeepsInv(s: PoolState, e: Event)
    requires Inv(s) && Enabled(s, e)
    ensures Inv(Step(s, e).state)
  {
    match e
    case Create(a) => CreateKeepsInv(s, a);
    case Register(a, callback) => RegisterKeepsInv(s, a, callback);
    case Request(a, retained) => RequestKeepsInv(s, a, retained);
    case Take(a, retained, lease) => TakeKeepsInv(s, a, retained, lease);
    case Release(lease) =>
      if lease in s.active {
        DropLeaseInHand(s, lease);
        AssignSlotKeepsInv(DropLease(s, lease), s.active[lease].slot);
      }
    case CloseAuthority(a) => CloseAuthorityKeepsInv(s, a);
    case ClosePool => ClosePoolKeepsInv(s);
  }

  // ----- The objects --------------------------------------------------------

  ghost function Views(known: set<Authority>): map<Authority, AuthorityState>
    reads known
  {
    map a | a in known :: a.View()
  }

  // Changing one authority changes one entry.
  lemma {:induction false} OnlyChanged(known: set<Authority>, before: map<Authority, AuthorityState>, a: Authority)
    requires a in known && before.Keys == known
    requires forall b :: b in known && b != a ==> b.View() == before[b]
    ensures Views(known) == before[a := a.View()]
  {
  }

  class Authority {
    const pool: ExecutionSlotPool
    var phase: Phase
    var requestId: RequestId
    var retained: int
    var readySlot: Option<nat>
    var sequence: nat
    var wakeup: Option<Callback>
    var leases: set<LeaseId>

    ghost function View(): AuthorityState
      reads this
    {
      AuthorityState(phase, requestId, retained, readySlot, sequence, wakeup, leases)
    }

    constructor (pool: ExecutionSlotPool)
      ensures this.pool == pool && View() == FRESH_AUTHORITY
    {
      this.pool := pool;
      phase, requestId, retained := Idle, NoRequest, 0;
      readySlot, sequence, wakeup, leases := None, 0, None, {};
    }

    method Retire() returns (notice: seq<Wakeup>)
      modifies this
      ensures View() == Retired(old(View()))
      ensures multiset(notice) == WakeupOf(this, old(wakeup))
    {
      notice := if wakeup.Some? then [Wakeup(this, wakeup.value)] else [];
      phase, requestId, retained, readySlot, wakeup := Closed, NoRequest, 0, None, None;
    }

    method RegisterWakeup(callback: Callback)
      requires pool.Valid() && this in pool.known
      modifies this
      ensures pool.Valid()
      ensures pool.State() == Step(old(pool.State()), Register(this, callback)).state
    {
      ghost var before := pool.State();
      StepKeepsInv(before, Register(this, callback));
      wakeup := Some(callback);
      OnlyChanged(pool.known, before.auth, this);
    }

    method Request(retainedInputBytes: int) returns (r: Result<bool, Error>)
      requires pool.Valid() && this in pool.known
      modifies this, pool
      ensures pool.Valid() && pool.known == old(pool.known)
      ensures var o := Step(old(pool.State()), Event.Request(this, retainedInputBytes));
              && pool.State() == o.state
              && o.reply == (match r case Success(now) => Accepted(now) case Failure(e) => Raised(e))
    {
      ghost var before := pool.State();
      r := RequestLocked(retainedInputBytes);
      StepKeepsInv(before, Event.Request(this, retainedInputBytes));
    }

    method RequestLocked(retainedInputBytes: int) returns (r: Result<bool, Error>)
      requires this in pool.known
      modifies this, pool`available, pool`waiters
      ensures var o := StepRequest(old(pool.State()), this, retainedInputBytes);
              && pool.State() == o.state
              && o.reply == (match r case Success(now) => Accepted(now) case Failure(e) => Raised(e))
    {
      if retainedInputBytes < 0 {
        return Failure(NegativeRetained);
      }
      if phase == Closed || pool.closed {
        return Failure(AuthorityClosed);
      }
      if phase != Idle {
        return Success(false);
      }
      ghost var before := pool.State();
      AskLocked(retainedInputBytes);
      OnlyChanged(pool.known, before.auth, this);
      return Success(true);
    }

    method AskLocked(retainedInputBytes: int)
      modifies this, pool`available, pool`waiters
      ensures var asked := old(View()).(sequence := old(sequence) + 1,
                                        requestId := LocalRequest(pool.prefix, old(sequence) + 1),
                                        retained := retainedInputBytes);
              if old(pool.available) != [] then
                && View() == asked.(readySlot := Some(old(pool.available[0])), phase := Ready)
                && pool.available == old(pool.available[1..])
                && pool.waiters == old(pool.waiters)
              else
                && View() == asked.(phase := Requested)
                && pool.available == old(pool.available)
                && pool.waiters == old(pool.waiters) + [this]
    {
      sequence := sequence + 1;
      requestId := LocalRequest(pool.prefix, sequence);
      retained := retainedInputBytes;
      if pool.available != [] {
        readySlot := Some(pool.available[0]);
        pool.available := pool.available[1..];
        phase := Ready;
      } else {
        phase := Requested;
        pool.waiters := pool.waiters + [this];
      }
    }

    // The lease id is drawn from the environment.
    method Take(retainedInputBytes: int, leaseId: LeaseId) returns (r: Result<AdmissionLease, Error>)
      requires pool.Valid() && this in pool.known && leaseId !in pool.active
      modifies this, pool
      ensures pool.Valid() && pool.known == old(pool.known)
      ensures var o := Step(old(pool.State()), Event.Take(this, retainedInputBytes, leaseId));
              && pool.State() == o.state
              && (r.Failure? ==> o.reply == Raised(r.error))
              && (r.Success? ==> fresh(r.value.handle) && !r.value.handle.released &&
                                 r.value.handle.callback == Some(leaseId) &&
                                 o.reply == Leased(r.value.requestId, r.value.retained, leaseId, r.value.slot))
    {
      ghost var before := pool.State();
      r := TakeLocked(retainedInputBytes, leaseId);
      StepKeepsInv(before, Event.Take(this, retainedInputBytes, leaseId));
    }

    method TakeLocked(retainedInputBytes: int, leaseId: LeaseId) returns (r: Result<AdmissionLease, Error>)
      requires this in pool.known
      modifies this, pool`active
      ensures var o := StepTake(old(pool.State()), this, retainedInputBytes, leaseId);
              && pool.State() == o.state
              && (r.Failure? ==> o.reply == Raised(r.error))
              && (r.Success? ==> fresh(r.value.handle) && !r.value.handle.released &&
                                 r.value.handle.callback == Some(leaseId) &&
                                 o.reply == Leased(r.value.requestId, r.value.retained, leaseId, r.value.slot))
    {
      if phase != Ready || readySlot == None {
        return Failure(NotReady);
      }
      if retainedInputBytes != retained {
        return Failure(RetainedMismatch);
      }
      ghost var before := pool.State();
      var lease := LeaseReadySlot(leaseId);
      OnlyChanged(pool.known, before.auth, this);
      return Success(lease);
    }

    method LeaseReadySlot(leaseId: LeaseId) returns (lease: AdmissionLease)
      requires readySlot.Some?
      modifies this, pool`active
      ensures fresh(lease.handle) && !lease.handle.released && lease.handle.callback == Some(leaseId)
      ensures lease == AdmissionLease(old(requestId), old(retained), leaseId, old(readySlot).value, lease.handle)
      ensures pool.active == old(pool.active)[leaseId := Holding(old(readySlot).value, this)]
      ensures View() == old(View()).(leases := old(leases) + {leaseId}, phase := Idle,
                                     requestId := NoRequest, retained := 0, readySlot := None)
    {
      var handle := new ReleaseHandle(Some(leaseId));
      lease := AdmissionLease(requestId, retained, leaseId, readySlot.value, handle);
      pool.active := pool.active[leaseId := Holding(readySlot.value, this)];
      leases := leases + {leaseId};
      phase, requestId, retained, readySlot := Idle, NoRequest, 0, None;
    }
  }

  // The executor's take: read the retained bytes, then take with them.
  method TakeTaskAdmission(a: Authority, leaseId: LeaseId) returns (r: Result<AdmissionLease, Error>)
    requires a.pool.Valid() && a in a.pool.known && leaseId !in a.pool.active
    modifies a, a.pool
    ensures a.pool.Valid()
    ensures a.pool.State() == Step(old(a.pool.State()), Event.Take(a, old(a.retained), leaseId)).state
    ensures r == Failure(NotReady) || r.Success?
    ensures r.Success? <==> old(a.phase) == Ready
    ensures r.Success? ==> r.value.slot == old(a.readySlot.value) && r.value.handle.callback == Some(leaseId)
  {
    var retained := a.retained;
    assert a.pool.State().auth[a] == a.View();
    r := a.Take(retained, leaseId);
  }

  // Releasing a lease runs its callback, the pool's release, at most once.
  method ReleaseLease(lease: AdmissionLease, pool: ExecutionSlotPool) returns (fired: seq<Wakeup>)
    requires pool.Valid()
    modifies lease.handle, pool, pool.known
    ensures pool.Valid() && lease.handle.released
    ensures !old(lease.handle.released) && old(lease.handle.callback).Some? ==>
              var o := Step(old(pool.State()), Event.Release(old(lease.handle.callback).value));
              pool.State() == o.state && multiset(fired) == o.fired
    ensures old(lease.handle.released) || old(lease.handle.callback) == None ==>
              pool.State() == old(pool.State()) && fired == []
  {
    var call := lease.handle.Release();
    if call == None {
      return [];
    }
    fired := pool.Release(call.value);
  }

  // One execution slot owned until released or handed off.  The release
  // callback is the lease id to give back to the pool.
  datatype AdmissionLease = AdmissionLease(
    requestId: RequestId,
    retained: int,
    leaseId: LeaseId,
    slot: nat,
    handle: ReleaseHandle<LeaseId>)

  ghost predicate BadPool(maxSlots: int, prefix: string) {
    maxSlots <= 0 || forall i :: 0 <= i < |prefix| ==> IsBlank(prefix[i])
  }

  class ExecutionSlotPool {
    const prefix: string
    const slots: nat
    var available: seq<nat>
    var active: map<LeaseId, Holding>
    var waiters: seq<Authority>
    var authorities: set<Authority>
    var closed: bool
    // Every authority ever admitted to this pool.
    ghost var known: set<Authority>

    ghost function State(): PoolState
      reads this, known
    {
      PoolState(prefix, slots, available, active, waiters, authorities, closed, Views(known))
    }

    ghost predicate Valid()
      reads this, known
    {
      (forall a :: a in known ==> a.pool == this) && Inv(State())
    }

    constructor (maxSlots: nat, prefix: string)
      requires maxSlots > 0 && prefix != ""
      ensures Valid() && State() == FreshPool(prefix, maxSlots) && known == {}
    {
      this.prefix, this.slots := prefix, maxSlots;
      available := AllSlots(maxSlots);
      active, waiters, authorities, closed := map[], [], {}, false;
      known := {};
      new;
      assert State() == FreshPool(prefix, maxSlots);
    }

    static method Create(maxSlots: int, prefix: string) returns (r: Result<ExecutionSlotPool, Error>)
      ensures r.Failure? <==> BadPool(maxSlots, prefix)
      ensures r.Failure? ==> r.error == if maxSlots <= 0 then NonPositiveSlots else EmptyPrefix
      ensures r.Success? ==> fresh(r.value) && r.value.Valid() && r.value.State() == FreshPool(Strip(prefix), maxSlots)
    {
      StripsToNothing(prefix);
      if maxSlots <= 0 {
        return Failure(NonPositiveSlots);
      }
      if Strip(prefix) == "" {
        return Failure(EmptyPrefix);
      }
      var pool := new ExecutionSlotPool(maxSlots, Strip(prefix));
      return Success(pool);
    }

    method CreateAuthority() returns (r: Result<Authority, Error>)
      requires Valid()
      modifies this
      ensures Valid()
      ensures r.Failure? <==> old(closed)
      ensures r.Failure? ==> r.error == PoolClosed && State() == old(State())
      ensures r.Success? ==> fresh(r.value) && r.value.pool == this && known == old(known) + {r.value} &&
                             r.value !in old(State()).auth &&
                             State() == Step(old(State()), Event.Create(r.value)).state
    {
      ghost var before := State();
      var a := new Authority(this);
      assert State() == before;
      if closed {
        return Failure(PoolClosed);
      }
      AdmitLocked(a);
      StepKeepsInv(before, Event.Create(a));
      return Success(a);
    }

    /** An authority in the given pool, or in a pool of its own made from slots
        and prefix; giving both or neither is refused. */
    static method JoinOrBuild(maxSlots: Option<int>, prefix: Option<string>, pool: ExecutionSlotPool?)
      returns (r: Result<Authority, Error>)
      requires pool != null ==> pool.Valid()
      modifies if pool == null then {} else {pool}
      ensures pool == null ==>
                && (r.Failure? <==> maxSlots == None || prefix == None || BadPool(maxSlots.value, prefix.value))
                && (r.Failure? ==> (r.error == NoPool <==> maxSlots == None || prefix == None))
      ensures pool == null && r.Success? ==>
                && fresh(r.value) && fresh(r.value.pool) && r.value.pool.Valid() && r.value in r.value.pool.known
                && var s := FreshPool(Strip(prefix.value), maxSlots.value);
                   r.value.pool.State() == Step(s, Event.Create(r.value)).state
      ensures pool != null ==>
                && pool.Valid()
                && (r.Failure? <==> maxSlots.Some? || prefix.Some? || old(pool.closed))
                && (r.Failure? ==> pool.State() == old(pool.State()))
                && (r.Failure? ==> r.error == if maxSlots.Some? || prefix.Some? then PoolAndSlots else PoolClosed)
      ensures pool != null && r.Success? ==>
                && fresh(r.value) && r.value.pool == pool && pool.known == old(pool.known) + {r.value}
                && r.value !in old(pool.State()).auth
                && pool.State() == Step(old(pool.State()), Event.Create(r.value)).state
    {
      if pool != null {
        if maxSlots.Some? || prefix.Some? {
          return Failure(PoolAndSlots);
        }
        r := pool.CreateAuthority();
        return;
      }
      if maxSlots == None || prefix == None {
        return Failure(NoPool);
      }
      var own := Create(maxSlots.value, prefix.value);
      if own.Failure? {
        return Failure(own.error);
      }
      r := own.value.CreateAuthority();
    }

    method AdmitLocked(a: Authority)
      requires a !in known && a.View() == FRESH_AUTHORITY
      modifies this`authorities, this`known
      ensures known == old(known) + {a}
      ensures State() == old(State()).(live := old(authorities) + {a}, auth := old(State()).auth[a := FRESH_AUTHORITY])
    {
      ghost var before := State();
      authorities := authorities + {a};
      known := known + {a};
      assert State().auth == before.auth[a := FRESH_AUTHORITY];
    }

    // Pops waiters until one that still wants a slot is found.
    method NextWaiter(ghost slot: nat) returns (next: Authority?)
      requires forall a :: a in waiters ==> a in known
      modifies this`waiters
      ensures next == null ==>
                State().waiters == [] && AssignSlot(State(), slot) == AssignSlot(old(State()), slot)
      ensures next != null ==>
                next in known && AssignSlot(old(State()), slot) == Grant(State(), next, slot)
    {
      ghost var before := State();
      next := null;
      while waiters != []
        invariant forall a :: a in waiters ==> a in known
        invariant AssignSlot(State(), slot) == AssignSlot(before, slot)
        decreases |waiters|
      {
        var a := waiters[0];
        assert a in waiters;
        ghost var cur := State();
        waiters := waiters[1..];
        assert State() == cur.(waiters := cur.waiters[1..]);
        if a.phase == Requested {
          return a;
        }
      }
    }

    method AssignSlotLocked(slot: nat) returns (fired: seq<Wakeup>)
      requires forall a :: a in waiters ==> a in known
      modifies this`waiters, this`available, known
      ensures State() == AssignSlot(old(State()), slot).state
      ensures multiset(fired) == AssignSlot(old(State()), slot).fired
    {
      var a := NextWaiter(slot);
      if a != null {
        fired := GrantLocked(a, slot);
        return;
      }
      if !closed {
        available := available + [slot];
      }
      return [];
    }

    method GrantLocked(a: Authority, slot: nat) returns (fired: seq<Wakeup>)
      requires a in known
      modifies a
      ensures State() == Grant(old(State()), a, slot).state
      ensures multiset(fired) == Grant(old(State()), a, slot).fired
    {
      ghost var before := State();
      a.readySlot := Some(slot);
      a.phase := Ready;
      OnlyChanged(known, before.auth, a);
      return if a.wakeup.Some? then [Wakeup(a, a.wakeup.value)] else [];
    }

    method Release(leaseId: LeaseId) returns (fired: seq<Wakeup>)
      requires Valid()
      modifies this, known
      ensures Valid() && known == old(known)
      ensures State() == Step(old(State()), Event.Release(leaseId)).state
      ensures multiset(fired) == Step(old(State()), Event.Release(leaseId)).fired
    {
      ghost var before := State();
      if leaseId !in active {
        return [];
      }
      fired := ReleaseLocked(leaseId);
      StepKeepsInv(before, Event.Release(leaseId));
    }

    method ReleaseLocked(leaseId: LeaseId) returns (fired: seq<Wakeup>)
      requires leaseId in active && active[leaseId].owner in known
      requires forall a :: a in waiters ==> a in known
      modifies this`active, this`waiters, this`available, known
      ensures State() == AssignSlot(DropLease(old(State()), leaseId), old(active[leaseId].slot)).state
      ensures multiset(fired) == AssignSlot(DropLease(old(State()), leaseId), old(active[leaseId].slot)).fired
    {
      var slot := active[leaseId].slot;
      DropLeaseLocked(leaseId);
      fired := AssignSlotLocked(slot);
    }

    method DropLeaseLocked(leaseId: LeaseId)
      requires leaseId in active && active[leaseId].owner in known
      modifies this`active, active[leaseId].owner`leases
      ensures State() == DropLease(old(State()), leaseId)
    {
      ghost var before := State();
      var owner := active[leaseId].owner;
      active := active - {leaseId};
      owner.leases := owner.leases - {leaseId};
      OnlyChanged(known, before.auth, owner);
    }

    method CloseAuthority(a: Authority) returns (fired: seq<Wakeup>)
      requires Valid() && a in known
      modifies this, known
      ensures Valid() && known == old(known)
      ensures State() == Step(old(State()), Event.CloseAuthority(a)).state
      ensures multiset(fired) == Step(old(State()), Event.CloseAuthority(a)).fired
    {
      ghost var before := State();
      fired := CloseAuthorityLocked(a);
      StepKeepsInv(before, Event.CloseAuthority(a));
    }

    method CloseAuthorityLocked(a: Authority) returns (fired: seq<Wakeup>)
      requires forall b :: b in waiters ==> b in known
      requires a in known
      modifies this`waiters, this`available, this`authorities, known
      ensures State() == StepCloseAuthority(old(State()), a).state
      ensures multiset(fired) == StepCloseAuthority(old(State()), a).fired
    {
      fired := [];
      if a.phase == Closed {
        return;
      }
      if a.phase == Requested {
        waiters := Without(waiters, a);
      } else if a.phase == Ready && a.readySlot.Some? {
        fired := AssignSlotLocked(a.readySlot.value);
      }
      RetireLocked(a);
    }

    method RetireLocked(a: Authority)
      requires a in known
      modifies this`authorities, a
      ensures State() == Retire(old(State()), a)
    {
      ghost var before := State();
      var _ := a.Retire();
      authorities := authorities - {a};
      OnlyChanged(known, before.auth, a);
    }

    method Close() returns (fired: seq<Wakeup>)
      requires Valid()
      modifies this, known
      ensures Valid() && known == old(known)
      ensures State() == Step(old(State()), ClosePool).state
      ensures multiset(fired) == Step(old(State()), ClosePool).fired
    {
      ghost var before := State();
      StepKeepsInv(before, ClosePool);
      if closed {
        return [];
      }
      fired := CloseLocked();
    }

    method CloseLocked() returns (fired: seq<Wakeup>)
      requires authorities <= known && !closed
      modifies this, known
      ensures known == old(known)
      ensures State() == StepClosePool(old(State())).state
      ensures multiset(fired) == StepClosePool(old(State())).fired
    {
      ghost var before := State();
      closed := true;
      waiters := [];
      fired := RetireAll(authorities, before.auth);
      authorities := {};
      available := [];
      assert State().auth == StepClosePool(before).state.auth;
    }
  }

  // The authorities still to do look as before, the others are retired.
  ghost predicate RetiredBut(live: set<Authority>, todo: set<Authority>, auth: map<Authority, AuthorityState>)
    requires live <= auth.Keys
    reads live
  {
    forall a :: a in live ==> a.View() == if a in todo then auth[a] else Retired(auth[a])
  }

  method RetireNext(a: Authority, live: set<Authority>, todo: set<Authority>,
                    ghost auth: map<Authority, AuthorityState>)
      returns (notice: seq<Wakeup>)
    requires live <= auth.Keys && a in todo && todo <= live && RetiredBut(live, todo, auth)
    modifies a
    ensures RetiredBut(live, todo - {a}, auth) && multiset(notice) == WakeupOf(a, auth[a].wakeup)
  {
    assert a.View() == auth[a];
    notice := a.Retire();
  }

  // The authorities are visited in no particular order.
  method RetireAll(live: set<Authority>, ghost auth: map<Authority, AuthorityState>) returns (fired: seq<Wakeup>)
    requires live <= auth.Keys
    requires forall a :: a in live ==> a.View() == auth[a]
    modifies live
    ensures forall a :: a in live ==> a.View() == Retired(auth[a])
    ensures multiset(fired) == Notices(auth, live)
  {
    var todo := live;
    fired := [];
    while todo != {}
      invariant todo <= live && RetiredBut(live, todo, auth)
      invariant multiset(fired) == Notices(auth, live - todo)
      decreases |todo|
    {
      var a :| a in todo;
      NoticeOneMore(auth, live - todo, a);
      assert live - (todo - {a}) == live - todo + {a};
      var notice := RetireNext(a, live, todo, auth);
      fired := fired + notice;
      todo := todo - {a};
    }
    assert live - todo == live;
  }

  lemma {:induction false} NoticeOneMore(auth: map<Authority, AuthorityState>, done: set<Authority>, a: Authority)
    requires done <= auth.Keys && a in auth && a !in done
    ensures Notices(auth, done + {a}) == Notices(auth, done) + WakeupOf(a, auth[a].wakeup)
  {
    var x := set b | b in done && auth[b].wakeup.Some? :: Wakeup(b, auth[b].wakeup.value);
    var y := set b | b in done + {a} && auth[b].wakeup.Some? :: Wakeup(b, auth[b].wakeup.value);
    if auth[a].wakeup.Some? {
      assert y == x + {Wakeup(a, auth[a].wakeup.value)};
    } else {
      assert y == x;
    }
  }
}
