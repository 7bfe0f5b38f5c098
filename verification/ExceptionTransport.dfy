/**
  Exceptions with their constructor arguments and state: extraction under one
  budget before serialisation, the same check after receipt, and the round trip
  of whole chains.
*/
module ExceptionTransport {
  import opened Wrappers
  import opened TransportValues
  import opened ExceptionChains

  // What `__reduce__` of an exception yields.
  datatype Reducer = Reducer(wellShaped: bool, sameType: bool, args: Value, state: Option<Value>)

  datatype Ctor = Ctor(args: Tree, state: Tree)

  predicate TextKeys(children: seq<Tree>)
    decreases |children|
  {
    |children| < 2 || (children[0].Leaf? && children[0].a.Text? && TextKeys(children[2..]))
  }

  // Absent, or a dict keyed by strings.
  predicate StateOk(t: Tree) {
    t == Leaf(Null) || (t.Node? && t.kind == Dict && TextKeys(t.children))
  }

  predicate IsTuple(h: Heap, v: Value) {
    v.Object? && v.ref in h && h[v.ref].Container? && h[v.ref].kind == Tuple
  }

  // Arguments and state share one budget.
  function CopyPair(h: Heap, args: Value, state: Value): Result<Ctor, ChainError> {
    CopyBoth(h, args, state, FULL_BUDGET)
  }

  function CopyBoth(h: Heap, args: Value, state: Value, budget: Budget): Result<Ctor, ChainError> {
    match Copy(h, args, 0, {}, budget)
    case Failure(_) => Failure(BadValue)
    case Success(a) =>
      match Copy(h, state, 0, {}, a.budget)
      case Failure(_) => Failure(BadValue)
      case Success(s) => Success(Ctor(a.tree, s.tree))
  }

  function StateValue(r: Reducer): Value {
    if r.state.Some? then r.state.value else Plain(Null)
  }

  // What the sender extracts from an exception.
  function Constructor(h: Heap, r: Reducer): Result<Ctor, ChainError> {
    if !r.wellShaped then Failure(BadReducer)
    else if !r.sameType || !IsTuple(h, r.args) then Failure(BadConstructor)
    else
      match CopyPair(h, r.args, StateValue(r))
      case Failure(e) => Failure(e)
      case Success(c) => if StateOk(c.state) then Success(c) else Failure(BadState)
  }

  // What the receiver makes of a payload's arguments and state.
  function Rebuild(h: Heap, args: Value, state: Value): Result<Ctor, ChainError> {
    match CopyPair(h, args, state)
    case Failure(e) => Failure(e)
    case Success(c) =>
      if !(c.args.Node? && c.args.kind == Tuple) then Failure(BadArguments)
      else if !StateOk(c.state) then Failure(BadState)
      else Success(c)
  }

  /** Arguments and state extracted on one side and received on the other pass
      every check there and come out equal. */
  lemma {:induction false} ConstructorRoundTrip(h: Heap, r: Reducer, h': Heap, args: Value, state: Value)
    requires DictsOk(h) && DictsOk(h') && Constructor(h, r).Success?
    requires Unfolds(h', args, Constructor(h, r).value.args) && Unfolds(h', state, Constructor(h, r).value.state)
    ensures Rebuild(h', args, state) == Constructor(h, r)
    ensures Unfolds(h, r.args, Constructor(h, r).value.args) && Unfolds(h, StateValue(r), Constructor(h, r).value.state)
  {
    var rest := Copy(h, r.args, 0, {}, FULL_BUDGET).value.budget;
    CopyIsFaithful(h, r.args, 0, {}, FULL_BUDGET);
    CopyIsFaithful(h, StateValue(r), 0, {}, rest);
    CopyOfCopy(h, r.args, h', args, FULL_BUDGET);
    CopyOfCopy(h, StateValue(r), h', state, rest);
  }

  // Every key is a text; keys stand at the even places.
  ghost predicate KeysAreTexts(children: seq<Tree>) {
    forall i :: 0 <= i < |children| / 2 ==> children[2 * i].Leaf? && children[2 * i].a.Text?
  }

  lemma {:induction false} TextKeysExactly(children: seq<Tree>)
    ensures TextKeys(children) <==> KeysAreTexts(children)
    decreases |children|
  {
    if |children| >= 2 {
      var rest := children[2..];
      TextKeysExactly(rest);
      assert forall i :: 0 <= i < |rest| / 2 ==> rest[2 * i] == children[2 * (i + 1)];
      if TextKeys(children) {
        forall i | 0 <= i < |children| / 2 ensures children[2 * i].Leaf? && children[2 * i].a.Text? {
          if i > 0 {
            assert rest[2 * (i - 1)] == children[2 * i];
          }
        }
      }
      if KeysAreTexts(children) {
        assert children[2 * 0].Leaf?;
        forall i | 0 <= i < |rest| / 2 ensures rest[2 * i].Leaf? && rest[2 * i].a.Text? {
          assert children[2 * (i + 1)].Leaf?;
        }
      }
    }
  }

  // Arguments and state as finite trees that share the limits: 1024 items, 65536
  // bytes, and sixteen containers around each other.
  ghost predicate Acceptable(args: Tree, state: Tree) {
    && Size(args) + Size(state) <= 1024 && LeafBytes(args) + LeafBytes(state) <= 65536
    && Height(args) <= 16 && Height(state) <= 16 && args.Node? && args.kind == Tuple
    && (state == Leaf(Null) || (state.Node? && state.kind == Dict && KeysAreTexts(state.children)))
  }

  ghost predicate Carries(h: Heap, r: Reducer, args: Tree, state: Tree) {
    Unfolds(h, r.args, args) && Unfolds(h, if r.state.Some? then r.state.value else Plain(Null), state)
  }

  // Both trees fit in the budget one after the other.
  ghost predicate BothFit(a: Tree, s: Tree, budget: Budget) {
    && Size(a) + Size(s) <= budget.items && LeafBytes(a) + LeafBytes(s) <= budget.bytes
    && Height(a) <= MAX_DEPTH && Height(s) <= MAX_DEPTH
  }

  lemma {:induction false} BothFitExactly(h: Heap, args: Value, state: Value, a: Tree, s: Tree, budget: Budget)
    requires DictsOk(h) && Unfolds(h, args, a) && Unfolds(h, state, s)
    ensures CopyBoth(h, args, state, budget) == if BothFit(a, s, budget) then Success(Ctor(a, s)) else Failure(BadValue)
  {
    CopyOfTree(h, args, a, budget);
    var first := Copy(h, args, 0, {}, budget);
    if first.Success? {
      CopyOfTree(h, state, s, first.value.budget);
      BothFitInTurn(a, s, budget, first.value.budget);
    } else {
      assert !BothFit(a, s, budget);
    }
  }

  lemma {:induction false} BothFitInTurn(a: Tree, s: Tree, budget: Budget, rest: Budget)
    requires Fits(a, 0, budget) && rest == Budget(budget.items - Size(a), budget.bytes - LeafBytes(a))
    ensures Fits(s, 0, rest) <==> BothFit(a, s, budget)
  {
  }

  /** The sender accepts exactly a well-shaped reducer of its own type whose tuple
      of arguments and whose state are finite and within the shared limits, the
      state missing or keyed by texts; it then extracts just these. */
  lemma {:induction false} AcceptsExactlyWhen(h: Heap, r: Reducer, c: Ctor)
    requires DictsOk(h)
    ensures Constructor(h, r) == Success(c) <==>
            r.wellShaped && r.sameType && Carries(h, r, c.args, c.state) && Acceptable(c.args, c.state)
  {
    if c.state.Node? {
      TextKeysExactly(c.state.children);
    }
    if Constructor(h, r) == Success(c) {
      CopyIsFaithful(h, r.args, 0, {}, FULL_BUDGET);
      CopyIsFaithful(h, StateValue(r), 0, {}, Copy(h, r.args, 0, {}, FULL_BUDGET).value.budget);
      BothFitExactly(h, r.args, StateValue(r), c.args, c.state, FULL_BUDGET);
    }
    if Carries(h, r, c.args, c.state) {
      BothFitExactly(h, r.args, StateValue(r), c.args, c.state, FULL_BUDGET);
    }
  }

  /** The receiver accepts exactly the same arguments and state. */
  lemma {:induction false} RebuildsExactlyWhen(h: Heap, args: Value, state: Value, c: Ctor)
    requires DictsOk(h)
    ensures Rebuild(h, args, state) == Success(c) <==>
            Unfolds(h, args, c.args) && Unfolds(h, state, c.state) && Acceptable(c.args, c.state)
  {
    if c.state.Node? {
      TextKeysExactly(c.state.children);
    }
    if Rebuild(h, args, state) == Success(c) {
      CopyIsFaithful(h, args, 0, {}, FULL_BUDGET);
      CopyIsFaithful(h, state, 0, {}, Copy(h, args, 0, {}, FULL_BUDGET).value.budget);
      BothFitExactly(h, args, state, c.args, c.state, FULL_BUDGET);
    }
    if Unfolds(h, args, c.args) && Unfolds(h, state, c.state) {
      BothFitExactly(h, args, state, c.args, c.state, FULL_BUDGET);
    }
  }

  // ----- Senders and receivers ----------------------------------------------

  datatype RawExc = RawExc(
    typeName: TypeName,
    message: string,
    traceback: string,
    reducer: Reducer,
    cause: Option<ExcId>,
    context: Option<ExcId>,
    suppress: bool)

  datatype Sender = Sender(heap: Heap, excs: map<ExcId, RawExc>) {
    // Links lead to exceptions of the same process.
    ghost predicate Ok() {
      DictsOk(heap) && Closed(Extracted())
    }

    function Extracted(): Excs<Ctor> {
      map id | id in excs ::
        var e := excs[id];
        Exc(e.typeName, e.message, e.traceback, Constructor(heap, e.reducer), e.cause, e.context, e.suppress)
    }
  }

  datatype RawNode = RawNode(
    typeName: TypeName,
    message: string,
    traceback: string,
    args: Value,
    state: Value,
    cause: Option<PayloadId>,
    context: Option<PayloadId>,
    suppress: bool)

  datatype Receiver = Receiver(heap: Heap, nodes: map<PayloadId, RawNode>) {
    function Checked(): Nodes<Ctor> {
      map id | id in nodes ::
        var n := nodes[id];
        PayloadNode(n.typeName, n.message, n.traceback, Rebuild(heap, n.args, n.state), n.cause, n.context, n.suppress)
    }
  }

  // The dictionaries and values received at `id` spell out the payload p.
  ghost predicate Delivered(r: Receiver, id: PayloadId, p: Payload<Ctor>)
    decreases p
  {
    && id in r.nodes && SameNode(r.Checked()[id], p)
    && Unfolds(r.heap, r.nodes[id].args, p.ctor.args) && Unfolds(r.heap, r.nodes[id].state, p.ctor.state)
    && (p.cause.Some? ==> Delivered(r, r.nodes[id].cause.value, p.cause.value))
    && (p.context.Some? ==> Delivered(r, r.nodes[id].context.value, p.context.value))
  }

  // c was extracted from one of the sender's exceptions.
  ghost predicate ExtractedCtor(s: Sender, c: Ctor) {
    exists id :: id in s.excs && Constructor(s.heap, s.excs[id].reducer) == Success(c)
  }

  ghost predicate ExtractedFrom(s: Sender, p: Payload<Ctor>)
    decreases p
  {
    && ExtractedCtor(s, p.ctor)
    && (p.cause.Some? ==> ExtractedFrom(s, p.cause.value))
    && (p.context.Some? ==> ExtractedFrom(s, p.context.value))
  }

  lemma {:induction false} SerializedIsExtracted(s: Sender, id: ExcId, length: nat, seen: set<ExcId>, p: Payload<Ctor>)
    requires SerializedTo(s.Extracted(), id, length, seen, p)
    ensures ExtractedFrom(s, p)
    decreases p
  {
    assert Constructor(s.heap, s.excs[id].reducer) == Success(p.ctor);
    if Inner(p).Some? {
      SerializedIsExtracted(s, NextLink(s.Extracted()[id]).value.id, length - 1, seen + {id}, Inner(p).value);
    }
  }

  lemma {:induction false} ExtractedCtorRebuilds(s: Sender, r: Receiver, c: Ctor, args: Value, state: Value)
    requires s.Ok() && DictsOk(r.heap) && ExtractedCtor(s, c)
    requires Unfolds(r.heap, args, c.args) && Unfolds(r.heap, state, c.state)
    ensures Rebuild(r.heap, args, state) == Success(c)
  {
    var id :| id in s.excs && Constructor(s.heap, s.excs[id].reducer) == Success(c);
    ConstructorRoundTrip(s.heap, s.excs[id].reducer, r.heap, args, state);
  }

  lemma {:induction false} DeliveredArrives(s: Sender, r: Receiver, id: PayloadId, p: Payload<Ctor>)
    requires s.Ok() && DictsOk(r.heap) && ExtractedFrom(s, p) && Delivered(r, id, p)
    ensures Arrived(r.Checked(), id, p)
    decreases p
  {
    ExtractedCtorRebuilds(s, r, p.ctor, r.nodes[id].args, r.nodes[id].state);
    if p.cause.Some? {
      DeliveredArrives(s, r, r.nodes[id].cause.value, p.cause.value);
    }
    if p.context.Some? {
      DeliveredArrives(s, r, r.nodes[id].context.value, p.context.value);
    }
  }

  /** The round trip: a chain that serialisation accepts, delivered to another
      process, is restored there with equal arguments and state, the same links
      and flags, without hitting any depth, item, byte or cycle limit. */
  lemma {:induction false} ExceptionRoundTrip(s: Sender, id: ExcId, r: Receiver, pid: PayloadId,
                                              importable: TypeName -> bool, p: Payload<Ctor>)
    requires s.Ok() && id in s.excs && DictsOk(r.heap)
    requires Serialize(s.Extracted(), id, 0, {}) == Success(p)
    requires Delivered(r, pid, p) && AllImportable(importable, p)
    ensures Restore(r.Checked(), importable, pid, 0, {}) == Success(Described(p))
  {
    SerializedIsExtracted(s, id, MAX_CHAIN + 1, {}, p);
    DeliveredArrives(s, r, pid, p);
    SerializeThenRestore(s.Extracted(), id, r.Checked(), pid, importable);
  }

  /** Every payload of a serialised chain holds the arguments and state of the
      exception it stands for. */
  lemma {:induction false} ChainArguments(s: Sender, trail: seq<ExcId>, spine: seq<Payload<Ctor>>, i: nat)
    requires s.Ok() && Follows(s.Extracted(), trail, spine) && i < |trail|
    ensures trail[i] in s.excs
    ensures Unfolds(s.heap, s.excs[trail[i]].reducer.args, spine[i].ctor.args)
    ensures Unfolds(s.heap, StateValue(s.excs[trail[i]].reducer), spine[i].ctor.state)
    decreases i
  {
    if i == 0 {
      ConstructorFaithful(s.heap, s.excs[trail[0]].reducer, spine[0].ctor);
    } else {
      ChainArguments(s, trail[1..], spine[1..], i - 1);
    }
  }

  lemma {:induction false} ConstructorFaithful(h: Heap, r: Reducer, c: Ctor)
    requires DictsOk(h) && Constructor(h, r) == Success(c)
    ensures Unfolds(h, r.args, c.args) && Unfolds(h, StateValue(r), c.state)
  {
    CopyIsFaithful(h, r.args, 0, {}, FULL_BUDGET);
    CopyIsFaithful(h, StateValue(r), 0, {}, Copy(h, r.args, 0, {}, FULL_BUDGET).value.budget);
  }

  // ----- From the sender's chain to the restored chain ----------------------

  // What a restored exception shares with the one it stands for.
  ghost predicate StandsFor(s: Sender, e: RawExc, x: Restored<Ctor>) {
    && x.typeName == e.typeName && x.traceback == e.traceback && x.suppress == e.suppress
    && Unfolds(s.heap, e.reducer.args, x.ctor.args) && Unfolds(s.heap, StateValue(e.reducer), x.ctor.state)
  }

  function LinkOf(e: RawExc): Option<LinkKind> {
    if e.cause.Some? then Some(Cause) else if e.context.Some? && !e.suppress then Some(Context) else None
  }

  // The restored chain x stands for the exceptions on the trail, link by link and
  // with the same kinds of links.
  ghost predicate Mirrors(s: Sender, trail: seq<ExcId>, x: Restored<Ctor>)
    decreases |trail|
  {
    && trail != [] && trail[0] in s.excs && StandsFor(s, s.excs[trail[0]], x)
    && if |trail| == 1 then x.cause == None && x.context == None
       else
         match LinkOf(s.excs[trail[0]])
         case None => false
         case Some(Cause) => x.cause.Some? && x.context == None && Mirrors(s, trail[1..], x.cause.value)
         case Some(Context) => x.context.Some? && x.cause == None && Mirrors(s, trail[1..], x.context.value)
  }

  lemma {:induction false} DescribedStandsFor(s: Sender, id: ExcId, p: Payload<Ctor>)
    requires s.Ok() && id in s.excs && Describes(p, s.Extracted()[id])
    ensures StandsFor(s, s.excs[id], Described(p))
  {
    ConstructorFaithful(s.heap, s.excs[id].reducer, p.ctor);
  }

  lemma {:induction false} MirrorsLonger(s: Sender, trail: seq<ExcId>, p: Payload<Ctor>)
    requires |trail| > 1 && trail[0] in s.excs && StandsFor(s, s.excs[trail[0]], Described(p))
    requires LinkOf(s.excs[trail[0]]).Some? && LinkedBy(p, LinkOf(s.excs[trail[0]]).value)
    requires Mirrors(s, trail[1..], Described(Inner(p).value))
    ensures Mirrors(s, trail, Described(p))
  {
  }

  lemma {:induction false} FollowsHead(s: Sender, trail: seq<ExcId>, p: Payload<Ctor>)
    requires Follows(s.Extracted(), trail, Spine(p))
    ensures trail != [] && trail[0] in s.excs && Describes(p, s.Extracted()[trail[0]])
    ensures |trail| == 1 ==> Inner(p) == None
    ensures |trail| > 1 ==>
              && LinkOf(s.excs[trail[0]]).Some? && LinkedBy(p, LinkOf(s.excs[trail[0]]).value)
              && Inner(p).Some? && Follows(s.Extracted(), trail[1..], Spine(Inner(p).value))
  {
    assert Spine(p)[0] == p;
    if |trail| > 1 {
      assert Spine(p)[1..] == Spine(Inner(p).value);
    }
  }

  lemma {:induction false} DescribedMirrors(s: Sender, trail: seq<ExcId>, p: Payload<Ctor>)
    requires s.Ok() && Follows(s.Extracted(), trail, Spine(p))
    ensures Mirrors(s, trail, Described(p))
    decreases p
  {
    FollowsHead(s, trail, p);
    DescribedStandsFor(s, trail[0], p);
    if |trail| > 1 {
      DescribedMirrors(s, trail[1..], Inner(p).value);
      MirrorsLonger(s, trail, p);
    }
  }

  lemma {:induction false} TrailImportable(excs: Excs<Ctor>, trail: seq<ExcId>, p: Payload<Ctor>,
                                           importable: TypeName -> bool)
    requires Follows(excs, trail, Spine(p))
    requires forall i :: 0 <= i < |trail| ==> trail[i] in excs && importable(excs[trail[i]].typeName)
    ensures AllImportable(importable, p)
    decreases p
  {
    assert Spine(p)[0] == p;
    if |trail| > 1 {
      assert Spine(p)[1..] == Spine(Inner(p).value);
      TrailImportable(excs, trail[1..], Inner(p).value, importable);
    }
  }

  // The exceptions that cross the process boundary with the one at `id`.
  function Sent(s: Sender, id: ExcId): seq<ExcId>
    requires s.Ok() && id in s.excs
  {
    Trail(s.Extracted(), id, MAX_CHAIN + 1, {})
  }

  /** From the sender's exceptions to the restored chain: if each of the first
      seventeen linked exceptions, up to the first repetition, has a constructor and
      an importable type, serialisation accepts the chain, and whoever receives the
      payload restores a chain that stands for them link by link. */
  lemma {:induction false} ChainRoundTrip(s: Sender, id: ExcId, r: Receiver, pid: PayloadId,
                                          importable: TypeName -> bool)
    requires s.Ok() && id in s.excs && DictsOk(r.heap)
    requires forall i :: 0 <= i < |Sent(s, id)| ==>
               && Sent(s, id)[i] in s.excs
               && Constructor(s.heap, s.excs[Sent(s, id)[i]].reducer).Success?
               && importable(s.excs[Sent(s, id)[i]].typeName)
    ensures Serialize(s.Extracted(), id, 0, {}).Success?
    ensures Delivered(r, pid, Serialize(s.Extracted(), id, 0, {}).value) ==>
              var restored := Restore(r.Checked(), importable, pid, 0, {});
              restored.Success? && Mirrors(s, Sent(s, id), restored.value)
  {
    var excs := s.Extracted();
    NoFaultExactlyWhen(excs, Sent(s, id));
    SerializesExactlyWhen(excs, id, 0, {});
    var p := Serialize(excs, id, 0, {}).value;
    PayloadDescribesChain(excs, id);
    if Delivered(r, pid, p) {
      TrailImportable(excs, Sent(s, id), p, importable);
      ExceptionRoundTrip(s, id, r, pid, importable, p);
      DescribedMirrors(s, Sent(s, id), p);
    }
  }
}
