/**
  Chains of exceptions as they cross a process boundary.  Each exception carries
  the outcome of extracting its constructor, of any type C; here only the chain
  structure matters: which links are followed, where the chain is cut, and that
  restoration rebuilds what was serialised.
*/
module ExceptionChains {
  import opened Wrappers

  const MAX_CHAIN := 16

  type ExcId = nat
  type PayloadId = nat
  type TypeName = (string, string)

  datatype ChainError =
    | BadReducer
    | BadConstructor
    | BadState
    | BadArguments
    | BadValue
    | ChainTooDeep
    | ChainCycle
    | NotAPayload
    | NotImportable

  datatype Exc<C> = Exc(
    typeName: TypeName,
    message: string,
    traceback: string,
    ctor: Result<C, ChainError>,
    cause: Option<ExcId>,
    context: Option<ExcId>,
    suppress: bool)

  type Excs<C> = map<ExcId, Exc<C>>

  ghost predicate LinksKnown<C>(excs: Excs<C>, id: ExcId) {
    && id in excs
    && (excs[id].cause.Some? ==> excs[id].cause.value in excs)
    && (excs[id].context.Some? ==> excs[id].context.value in excs)
  }

  ghost predicate Closed<C>(excs: Excs<C>) {
    forall id {:trigger LinksKnown(excs, id)} :: id in excs ==> LinksKnown(excs, id)
  }

  // ----- Serialisation ------------------------------------------------------

  datatype Payload<C> = Payload(
    typeName: TypeName,
    message: string,
    traceback: string,
    ctor: C,
    cause: Option<Payload<C>>,
    context: Option<Payload<C>>,
    suppress: bool)

  function Bare<C>(e: Exc<C>): Payload<C>
    requires e.ctor.Success?
  {
    Payload(e.typeName, e.message, e.traceback, e.ctor.value, None, None, e.suppress)
  }

  function Serialize<C>(excs: Excs<C>, id: ExcId, depth: nat, seen: set<ExcId>): (r: Result<Payload<C>, ChainError>)
    requires Closed(excs) && id in excs && depth <= MAX_CHAIN
    ensures r.Success? ==> SerializedTo(excs, id, MAX_CHAIN + 1 - depth, seen, r.value)
    decreases MAX_CHAIN - depth
  {
    var e := excs[id];
    assert LinksKnown(excs, id);
    if e.ctor.Failure? then Failure(e.ctor.error)
    else if depth >= MAX_CHAIN || id in seen then Success(Bare(e))
    else if e.cause.Some? then
      match Serialize(excs, e.cause.value, depth + 1, seen + {id})
      case Failure(err) => Failure(err)
      case Success(p) => Success(Bare(e).(cause := Some(p)))
    else if e.context.Some? && !e.suppress then
      match Serialize(excs, e.context.value, depth + 1, seen + {id})
      case Failure(err) => Failure(err)
      case Success(p) => Success(Bare(e).(context := Some(p)))
    else Success(Bare(e))
  }

  // ----- Restoration --------------------------------------------------------

  // A received payload dictionary; `rebuilt` is the outcome of checking and
  // copying its constructor arguments and state.
  datatype PayloadNode<C> = PayloadNode(
    typeName: TypeName,
    message: string,
    traceback: string,
    rebuilt: Result<C, ChainError>,
    cause: Option<PayloadId>,
    context: Option<PayloadId>,
    suppress: bool)

  type Nodes<C> = map<PayloadId, PayloadNode<C>>

  datatype Restored<C> = Restored(
    typeName: TypeName,
    traceback: string,
    ctor: C,
    cause: Option<Restored<C>>,
    context: Option<Restored<C>>,
    suppress: bool)

  function Restore<C>(nodes: Nodes<C>, importable: TypeName -> bool, id: PayloadId, depth: nat,
                      seen: set<PayloadId>): Result<Restored<C>, ChainError>
    requires depth <= MAX_CHAIN + 1
    decreases MAX_CHAIN + 1 - depth, 0
  {
    if depth > MAX_CHAIN then Failure(ChainTooDeep)
    else if id !in nodes then Failure(NotAPayload)
    else if id in seen then Failure(ChainCycle)
    else
      var n := nodes[id];
      if !importable(n.typeName) then Failure(NotImportable)
      else
        match n.rebuilt
        case Failure(e) => Failure(e)
        case Success(c) =>
          match RestoreLink(nodes, importable, n.cause, depth + 1, seen + {id})
          case Failure(e) => Failure(e)
          case Success(cause) =>
            match RestoreLink(nodes, importable, n.context, depth + 1, seen + {id})
            case Failure(e) => Failure(e)
            case Success(context) => Success(Restored(n.typeName, n.traceback, c, cause, context, n.suppress))
  }

  function RestoreLink<C>(nodes: Nodes<C>, importable: TypeName -> bool, link: Option<PayloadId>, depth: nat,
                          seen: set<PayloadId>): Result<Option<Restored<C>>, ChainError>
    requires depth <= MAX_CHAIN + 1
    decreases MAX_CHAIN + 1 - depth, 1
  {
    if link == None then Success(None)
    else
      match Restore(nodes, importable, link.value, depth, seen)
      case Failure(e) => Failure(e)
      case Success(x) => Success(Some(x))
  }

  // ----- What a payload says about the chain --------------------------------

  datatype LinkKind = Cause | Context

  datatype Link = Link(kind: LinkKind, id: ExcId)

  // A cause hides the context; a suppressed context is not followed.
  function NextLink<C>(e: Exc<C>): Option<Link> {
    if e.cause.Some? then Some(Link(Cause, e.cause.value))
    else if e.context.Some? && !e.suppress then Some(Link(Context, e.context.value))
    else None
  }

  ghost predicate Describes<C>(p: Payload<C>, e: Exc<C>) {
    && p.typeName == e.typeName && p.message == e.message && p.traceback == e.traceback
    && Success(p.ctor) == e.ctor && p.suppress == e.suppress
  }

  // The payload a payload links to, whichever kind the link is.
  ghost function Inner<C>(p: Payload<C>): Option<Payload<C>> {
    if p.cause.Some? then p.cause else p.context
  }

  // Whether p is linked inward exactly as the kind of link demands.
  ghost predicate LinkedBy<C>(p: Payload<C>, kind: LinkKind) {
    (p.cause.Some? <==> kind == Cause) && (p.context.Some? <==> kind == Context)
  }

  // The payloads serialisation may produce, with at most `length` links left.
  ghost predicate SerializedTo<C>(excs: Excs<C>, id: ExcId, length: nat, seen: set<ExcId>, p: Payload<C>)
    decreases p
  {
    && length > 0 && id in excs && Describes(p, excs[id])
    && var link := NextLink(excs[id]);
       if length == 1 || id in seen || link == None then Inner(p) == None
       else
         && LinkedBy(p, link.value.kind)
         && match Inner(p)
            case None => false
            case Some(q) => SerializedTo(excs, link.value.id, length - 1, seen + {id}, q)
  }

  // The payloads of a chain, outermost first.
  ghost function Spine<C>(p: Payload<C>): seq<Payload<C>>
    decreases p
  {
    [p] + match Inner(p) case None => [] case Some(q) => Spine(q)
  }

  // The exceptions met by following links, each matched by its payload.
  ghost predicate Follows<C>(excs: Excs<C>, trail: seq<ExcId>, spine: seq<Payload<C>>)
    decreases |trail|
  {
    && |trail| == |spine| > 0 && trail[0] in excs && Describes(spine[0], excs[trail[0]])
    && if |trail| == 1 then Inner(spine[0]) == None
       else
         && NextLink(excs[trail[0]]).Some? && NextLink(excs[trail[0]]).value.id == trail[1]
         && LinkedBy(spine[0], NextLink(excs[trail[0]]).value.kind)
         && Follows(excs, trail[1..], spine[1..])
  }

  // Where a trail stops: at the length limit, at an exception without a
  // further link, or at the first one met before.
  ghost predicate StopsAt<C>(excs: Excs<C>, trail: seq<ExcId>, limit: nat, seen: set<ExcId>) {
    && 0 < |trail| <= limit
    && var last := trail[|trail| - 1];
       || |trail| == limit || (last in excs && NextLink(excs[last]) == None)
       || last in seen || last in trail[..|trail| - 1]
  }

  // No exception before the last is met twice.
  ghost predicate NoneEarlier(trail: seq<ExcId>, seen: set<ExcId>) {
    && (forall i :: 0 <= i < |trail| - 1 ==> trail[i] !in seen)
    && (forall i, j :: 0 <= i < j < |trail| - 1 ==> trail[i] != trail[j])
  }

  // The exceptions reached from `id` by following links, at most `length` of them
  // and none beyond the first one met before.
  function Trail<C>(excs: Excs<C>, id: ExcId, length: nat, seen: set<ExcId>): seq<ExcId>
    decreases length
  {
    if Last(excs, id, length, seen) then [id]
    else [id] + Trail(excs, NextLink(excs[id]).value.id, length - 1, seen + {id})
  }

  predicate Last<C>(excs: Excs<C>, id: ExcId, length: nat, seen: set<ExcId>) {
    length <= 1 || id in seen || id !in excs || NextLink(excs[id]) == None
  }

  lemma {:induction false} NextKnown<C>(excs: Excs<C>, id: ExcId, length: nat, seen: set<ExcId>)
    requires Closed(excs) && !Last(excs, id, length, seen)
    ensures NextLink(excs[id]).value.id in excs
  {
    assert LinksKnown(excs, id);
  }

  // The exceptions that a trail may stop at or pass.
  ghost predicate StopsRight<C>(excs: Excs<C>, trail: seq<ExcId>, limit: nat, seen: set<ExcId>) {
    StopsAt(excs, trail, limit, seen) && NoneEarlier(trail, seen)
  }

  lemma {:induction false} LastStops<C>(excs: Excs<C>, id: ExcId, length: nat, seen: set<ExcId>)
    requires id in excs && length > 0 && Last(excs, id, length, seen)
    ensures StopsRight(excs, [id], length, seen)
  {
  }

  lemma {:induction false} TrailCons<C>(excs: Excs<C>, id: ExcId, length: nat, seen: set<ExcId>)
    requires !Last(excs, id, length, seen)
    ensures Trail(excs, id, length, seen) ==
            [id] + Trail(excs, NextLink(excs[id]).value.id, length - 1, seen + {id})
  {
  }

  lemma {:induction false} TrailStops<C>(excs: Excs<C>, id: ExcId, length: nat, seen: set<ExcId>)
    requires Closed(excs) && id in excs && length > 0
    ensures StopsRight(excs, Trail(excs, id, length, seen), length, seen)
    decreases length
  {
    if Last(excs, id, length, seen) {
      LastStops(excs, id, length, seen);
    } else {
      var next := NextLink(excs[id]).value.id;
      NextKnown(excs, id, length, seen);
      TrailStops(excs, next, length - 1, seen + {id});
      StopExtends(excs, id, Trail(excs, next, length - 1, seen + {id}), length - 1, seen);
      TrailCons(excs, id, length, seen);
    }
  }

  lemma {:induction false} SerializedFollows<C>(excs: Excs<C>, id: ExcId, length: nat, seen: set<ExcId>, p: Payload<C>)
    requires SerializedTo(excs, id, length, seen, p)
    ensures Follows(excs, Trail(excs, id, length, seen), Spine(p)) && Trail(excs, id, length, seen)[0] == id
    decreases p
  {
    if Inner(p).Some? {
      var next := NextLink(excs[id]).value.id;
      SerializedFollows(excs, next, length - 1, seen + {id}, Inner(p).value);
      assert Trail(excs, id, length, seen)[1..] == Trail(excs, next, length - 1, seen + {id});
      assert Spine(p)[1..] == Spine(Inner(p).value);
    }
  }

  lemma {:induction false} StopExtends<C>(excs: Excs<C>, id: ExcId, rest: seq<ExcId>, limit: nat, seen: set<ExcId>)
    requires StopsRight(excs, rest, limit, seen + {id}) && id !in seen
    ensures StopsRight(excs, [id] + rest, limit + 1, seen)
  {
    var trail, n := [id] + rest, |rest| - 1;
    assert trail[..n + 1] == [id] + rest[..n];
    if rest[n] in rest[..n] {
      assert rest[n] in trail[..n + 1];
    }
    forall i, j | 0 <= i < j < |trail| - 1 ensures trail[i] != trail[j] {
      assert trail[j] == rest[j - 1];
      if i > 0 {
        assert trail[i] == rest[i - 1];
      }
    }
  }

  /** The payload lists the exceptions reached by cause and unsuppressed context
      links: the first seventeen, or all up to the end of the chain or to the
      first repetition, each with its type, constructor, flags and link kind. */
  lemma {:induction false} PayloadDescribesChain<C>(excs: Excs<C>, id: ExcId)
    requires Closed(excs) && id in excs && Serialize(excs, id, 0, {}).Success?
    ensures var trail := Trail(excs, id, MAX_CHAIN + 1, {});
            && Follows(excs, trail, Spine(Serialize(excs, id, 0, {}).value))
            && StopsRight(excs, trail, MAX_CHAIN + 1, {})
  {
    SerializedFollows(excs, id, MAX_CHAIN + 1, {}, Serialize(excs, id, 0, {}).value);
    TrailStops(excs, id, MAX_CHAIN + 1, {});
  }

  // ----- Which chains are accepted ------------------------------------------

  // The error of the first exception without a constructor.
  function FirstFault<C>(excs: Excs<C>, trail: seq<ExcId>): Option<ChainError> {
    if trail == [] then None
    else if trail[0] in excs && excs[trail[0]].ctor.Failure? then Some(excs[trail[0]].ctor.error)
    else FirstFault(excs, trail[1..])
  }

  lemma {:induction false} NoFaultExactlyWhen<C>(excs: Excs<C>, trail: seq<ExcId>)
    requires forall i :: 0 <= i < |trail| ==> trail[i] in excs
    ensures FirstFault(excs, trail) == None <==> forall i :: 0 <= i < |trail| ==> excs[trail[i]].ctor.Success?
  {
    if trail != [] {
      NoFaultExactlyWhen(excs, trail[1..]);
      assert forall i :: 0 < i < |trail| ==> trail[i] == trail[1..][i - 1];
    }
  }

  function SerializeFault<C>(excs: Excs<C>, id: ExcId, depth: nat, seen: set<ExcId>): Option<ChainError>
    requires Closed(excs) && id in excs && depth <= MAX_CHAIN
  {
    var r := Serialize(excs, id, depth, seen);
    if r.Success? then None else Some(r.error)
  }

  function TrailFault<C>(excs: Excs<C>, id: ExcId, length: nat, seen: set<ExcId>): Option<ChainError> {
    FirstFault(excs, Trail(excs, id, length, seen))
  }

  // Serialisation and the trail fail alike, one step at a time.
  lemma {:induction false} SerializeOne<C>(excs: Excs<C>, id: ExcId, depth: nat, seen: set<ExcId>)
    requires LinksKnown(excs, id) && Closed(excs) && depth <= MAX_CHAIN
    ensures var e := excs[id];
            SerializeFault(excs, id, depth, seen) ==
            if e.ctor.Failure? then Some(e.ctor.error)
            else if Last(excs, id, MAX_CHAIN + 1 - depth, seen) then None
            else SerializeFault(excs, NextLink(e).value.id, depth + 1, seen + {id})
  {
  }

  lemma {:induction false} TrailOne<C>(excs: Excs<C>, id: ExcId, length: nat, seen: set<ExcId>)
    requires id in excs
    ensures var e := excs[id];
            TrailFault(excs, id, length, seen) ==
            if e.ctor.Failure? then Some(e.ctor.error)
            else if Last(excs, id, length, seen) then None
            else TrailFault(excs, NextLink(e).value.id, length - 1, seen + {id})
  {
    var e, trail := excs[id], Trail(excs, id, length, seen);
    assert FirstFault(excs, trail) == if e.ctor.Failure? then Some(e.ctor.error) else FirstFault(excs, trail[1..]);
    if Last(excs, id, length, seen) {
      assert trail[1..] == [];
    } else {
      assert trail[1..] == Trail(excs, NextLink(e).value.id, length - 1, seen + {id});
    }
  }

  /** Serialisation accepts a chain exactly when every exception on its trail has a
      constructor, and otherwise fails as the first one that has none. */
  lemma {:induction false} SerializesExactlyWhen<C>(excs: Excs<C>, id: ExcId, depth: nat, seen: set<ExcId>)
    requires Closed(excs) && id in excs && depth <= MAX_CHAIN
    ensures SerializeFault(excs, id, depth, seen) == TrailFault(excs, id, MAX_CHAIN + 1 - depth, seen)
    decreases MAX_CHAIN - depth
  {
    assert LinksKnown(excs, id);
    SerializeOne(excs, id, depth, seen);
    TrailOne(excs, id, MAX_CHAIN + 1 - depth, seen);
    if !Last(excs, id, MAX_CHAIN + 1 - depth, seen) {
      SerializesExactlyWhen(excs, NextLink(excs[id]).value.id, depth + 1, seen + {id});
    }
  }

  // ----- Restoring an arrived payload ---------------------------------------

  ghost predicate SameNode<C>(n: PayloadNode<C>, p: Payload<C>) {
    && n.typeName == p.typeName && n.message == p.message && n.traceback == p.traceback && n.suppress == p.suppress
    && (n.cause.Some? <==> p.cause.Some?) && (n.context.Some? <==> p.context.Some?)
  }

  // The received dictionaries at `id` spell out the payload p, and its
  // constructors pass the checks of the far side.
  ghost predicate Arrived<C>(nodes: Nodes<C>, id: PayloadId, p: Payload<C>)
    decreases p
  {
    && id in nodes && SameNode(nodes[id], p) && nodes[id].rebuilt == Success(p.ctor)
    && (p.cause.Some? ==> Arrived(nodes, nodes[id].cause.value, p.cause.value))
    && (p.context.Some? ==> Arrived(nodes, nodes[id].context.value, p.context.value))
  }

  lemma {:induction false} ArrivedUnique<C>(nodes: Nodes<C>, id: PayloadId, p: Payload<C>, p': Payload<C>)
    requires Arrived(nodes, id, p) && Arrived(nodes, id, p')
    ensures p == p'
    decreases p
  {
    if p.cause.Some? {
      ArrivedUnique(nodes, nodes[id].cause.value, p.cause.value, p'.cause.value);
    }
    if p.context.Some? {
      ArrivedUnique(nodes, nodes[id].context.value, p.context.value, p'.context.value);
    }
  }

  ghost function LinkSize<C>(p: Option<Payload<C>>): nat {
    if p.Some? then PayloadSize(p.value) else 0
  }

  ghost function PayloadSize<C>(p: Payload<C>): nat {
    1 + LinkSize(p.cause) + LinkSize(p.context)
  }

  // No payload in progress is as small as n: none can occur below.
  ghost predicate Above<C(!new)>(nodes: Nodes<C>, seen: set<PayloadId>, n: nat) {
    forall q, p {:trigger Arrived(nodes, q, p)} :: q in seen && Arrived(nodes, q, p) ==> PayloadSize(p) > n
  }

  ghost predicate AtMost<C>(p: Payload<C>, length: nat)
    decreases p
  {
    && length > 0
    && (p.cause.Some? ==> AtMost(p.cause.value, length - 1))
    && (p.context.Some? ==> AtMost(p.context.value, length - 1))
  }

  ghost predicate AllImportable<C>(importable: TypeName -> bool, p: Payload<C>)
    decreases p
  {
    && importable(p.typeName)
    && (p.cause.Some? ==> AllImportable(importable, p.cause.value))
    && (p.context.Some? ==> AllImportable(importable, p.context.value))
  }

  ghost function DescribedLink<C>(p: Option<Payload<C>>): Option<Restored<C>>
    decreases p, 0
  {
    if p.Some? then Some(Described(p.value)) else None
  }

  // The exception a payload describes.
  ghost function Described<C>(p: Payload<C>): Restored<C>
    decreases p, 1
  {
    Restored(p.typeName, p.traceback, p.ctor, DescribedLink(p.cause), DescribedLink(p.context), p.suppress)
  }

  lemma {:induction false} ParentAbove<C(!new)>(nodes: Nodes<C>, seen: set<PayloadId>, id: PayloadId, p: Payload<C>,
                                                link: Option<Payload<C>>)
    requires Arrived(nodes, id, p) && Above(nodes, seen, PayloadSize(p)) && (link == p.cause || link == p.context)
    ensures Above(nodes, seen + {id}, LinkSize(link))
  {
    forall q, p' | q in seen + {id} && Arrived(nodes, q, p') ensures PayloadSize(p') > LinkSize(link) {
      if q == id {
        ArrivedUnique(nodes, id, p, p');
      }
    }
  }

  /** A payload that has arrived is never taken for a cycle and is rebuilt as
      described. */
  lemma {:induction false} RestoreArrived<C(!new)>(nodes: Nodes<C>, importable: TypeName -> bool, id: PayloadId,
                                                   p: Payload<C>, depth: nat, seen: set<PayloadId>, length: nat)
    requires Arrived(nodes, id, p) && AllImportable(importable, p) && Above(nodes, seen, PayloadSize(p))
    requires depth <= MAX_CHAIN && length == MAX_CHAIN + 1 - depth && AtMost(p, length)
    ensures Restore(nodes, importable, id, depth, seen) == Success(Described(p))
    decreases p
  {
    if p.cause.Some? {
      ParentAbove(nodes, seen, id, p, p.cause);
      RestoreArrived(nodes, importable, nodes[id].cause.value, p.cause.value, depth + 1, seen + {id}, length - 1);
    }
    if p.context.Some? {
      ParentAbove(nodes, seen, id, p, p.context);
      RestoreArrived(nodes, importable, nodes[id].context.value, p.context.value, depth + 1, seen + {id}, length - 1);
    }
  }

  lemma {:induction false} SerializedAtMost<C>(excs: Excs<C>, id: ExcId, length: nat, seen: set<ExcId>, p: Payload<C>)
    requires SerializedTo(excs, id, length, seen, p)
    ensures AtMost(p, length)
    decreases p
  {
    if Inner(p).Some? {
      SerializedAtMost(excs, NextLink(excs[id]).value.id, length - 1, seen + {id}, Inner(p).value);
    }
  }

  /** Whatever chain serialisation accepts, cyclic or not, its payload is
      restored without hitting the depth limit or the cycle check. */
  lemma {:induction false} SerializeThenRestore<C(!new)>(excs: Excs<C>, id: ExcId, nodes: Nodes<C>, pid: PayloadId,
                                                         importable: TypeName -> bool)
    requires Closed(excs) && id in excs && Serialize(excs, id, 0, {}).Success?
    requires Arrived(nodes, pid, Serialize(excs, id, 0, {}).value)
    requires AllImportable(importable, Serialize(excs, id, 0, {}).value)
    ensures Restore(nodes, importable, pid, 0, {}) == Success(Described(Serialize(excs, id, 0, {}).value))
  {
    var p := Serialize(excs, id, 0, {}).value;
    SerializedAtMost(excs, id, MAX_CHAIN + 1, {}, p);
    RestoreArrived(nodes, importable, pid, p, 0, {}, MAX_CHAIN + 1);
  }

  // ----- Which payloads are restored ----------------------------------------

  // Ids that follow each other by a cause or context link.
  ghost predicate Linked<C>(nodes: Nodes<C>, a: PayloadId, b: PayloadId) {
    a in nodes && (nodes[a].cause == Some(b) || nodes[a].context == Some(b))
  }

  ghost predicate IsPath<C>(nodes: Nodes<C>, id: PayloadId, path: seq<PayloadId>) {
    path != [] && path[0] == id && forall i :: 0 <= i < |path| - 1 ==> Linked(nodes, path[i], path[i + 1])
  }

  ghost predicate Good<C>(nodes: Nodes<C>, importable: TypeName -> bool, id: PayloadId) {
    id in nodes && importable(nodes[id].typeName) && nodes[id].rebuilt.Success?
  }

  // Every path from `id` is short, ends at a good payload and avoids `seen`.
  ghost predicate PathsGood<C(!new)>(nodes: Nodes<C>, importable: TypeName -> bool, id: PayloadId, length: int,
                                     seen: set<PayloadId>)
  {
    forall path :: IsPath(nodes, id, path) ==>
      |path| <= length && path[|path| - 1] !in seen && Good(nodes, importable, path[|path| - 1])
  }

  lemma {:induction false} PathOfOne<C>(nodes: Nodes<C>, id: PayloadId)
    ensures IsPath(nodes, id, [id])
  {
  }

  lemma {:induction false} PathCons<C>(nodes: Nodes<C>, id: PayloadId, next: PayloadId, path: seq<PayloadId>)
    requires Linked(nodes, id, next) && IsPath(nodes, next, path)
    ensures IsPath(nodes, id, [id] + path)
  {
  }

  lemma {:induction false} PathTail<C>(nodes: Nodes<C>, id: PayloadId, path: seq<PayloadId>)
    requires IsPath(nodes, id, path) && |path| > 1
    ensures Linked(nodes, id, path[1]) && IsPath(nodes, path[1], path[1..])
  {
    var rest := path[1..];
    forall i | 0 <= i < |rest| - 1 ensures Linked(nodes, rest[i], rest[i + 1]) {
      assert Linked(nodes, path[i + 1], path[i + 2]);
    }
    assert Linked(nodes, path[0], path[0 + 1]);
  }

  // A path back to its start can be walked again and again.
  lemma {:induction false} PathAround<C>(nodes: Nodes<C>, id: PayloadId, around: seq<PayloadId>, n: nat)
    returns (path: seq<PayloadId>)
    requires IsPath(nodes, id, around) && |around| > 1 && around[|around| - 1] == id
    ensures IsPath(nodes, id, path) && |path| > n
  {
    if n == 0 {
      path := around;
    } else {
      var rest := PathAround(nodes, id, around, n - 1);
      path := around[..|around| - 1] + rest;
      forall i | 0 <= i < |path| - 1 ensures Linked(nodes, path[i], path[i + 1]) {
        if i < |around| - 1 {
          assert Linked(nodes, around[i], around[i + 1]);
        } else {
          assert Linked(nodes, rest[i - |around| + 1], rest[i - |around| + 2]);
        }
      }
    }
  }

  lemma {:induction false} LinkGood<C(!new)>(nodes: Nodes<C>, importable: TypeName -> bool, id: PayloadId,
                                             next: PayloadId, length: nat, seen: set<PayloadId>)
    requires PathsGood(nodes, importable, id, length, seen) && Linked(nodes, id, next)
    ensures PathsGood(nodes, importable, next, length - 1, seen + {id})
  {
    forall path | IsPath(nodes, next, path)
      ensures |path| <= length - 1 && path[|path| - 1] !in seen + {id} && Good(nodes, importable, path[|path| - 1])
    {
      PathCons(nodes, id, next, path);
      assert ([id] + path)[|path|] == path[|path| - 1];
      if path[|path| - 1] == id {
        var longer := PathAround(nodes, id, [id] + path, length);
        assert false;
      }
    }
  }

  lemma {:induction false} PathsGoodByLinks<C(!new)>(nodes: Nodes<C>, importable: TypeName -> bool, id: PayloadId,
                                                     length: nat, seen: set<PayloadId>)
    requires length > 0 && Good(nodes, importable, id) && id !in seen
    requires forall next :: Linked(nodes, id, next) ==> PathsGood(nodes, importable, next, length - 1, seen + {id})
    ensures PathsGood(nodes, importable, id, length, seen)
  {
    forall path | IsPath(nodes, id, path)
      ensures |path| <= length && path[|path| - 1] !in seen && Good(nodes, importable, path[|path| - 1])
    {
      if |path| > 1 {
        PathTail(nodes, id, path);
        assert path[1..][|path| - 2] == path[|path| - 1];
      }
    }
  }

  lemma {:induction false} RestoreByPaths<C(!new)>(nodes: Nodes<C>, importable: TypeName -> bool, id: PayloadId,
                                                   depth: nat, seen: set<PayloadId>)
    requires depth <= MAX_CHAIN + 1
    ensures Restore(nodes, importable, id, depth, seen).Success? <==>
            PathsGood(nodes, importable, id, MAX_CHAIN + 1 - depth, seen)
    decreases MAX_CHAIN + 1 - depth, 0
  {
    PathOfOne(nodes, id);
    if depth <= MAX_CHAIN && Good(nodes, importable, id) && id !in seen {
      RestoreLinksByPaths(nodes, importable, id, depth, seen);
    }
  }

  lemma {:induction false} RestoreByLinks<C(!new)>(nodes: Nodes<C>, importable: TypeName -> bool, id: PayloadId,
                                                   depth: nat, seen: set<PayloadId>)
    requires depth <= MAX_CHAIN && Good(nodes, importable, id) && id !in seen
    ensures Restore(nodes, importable, id, depth, seen).Success? <==>
            forall next :: Linked(nodes, id, next) ==>
              Restore(nodes, importable, next, depth + 1, seen + {id}).Success?
  {
    var n := nodes[id];
    if Restore(nodes, importable, id, depth, seen).Success? {
      assert RestoreLink(nodes, importable, n.cause, depth + 1, seen + {id}).Success?;
      assert RestoreLink(nodes, importable, n.context, depth + 1, seen + {id}).Success?;
    }
    assert n.cause.Some? ==> Linked(nodes, id, n.cause.value);
    assert n.context.Some? ==> Linked(nodes, id, n.context.value);
  }

  lemma {:induction false} RestoreLinksByPaths<C(!new)>(nodes: Nodes<C>, importable: TypeName -> bool, id: PayloadId,
                                                        depth: nat, seen: set<PayloadId>)
    requires depth <= MAX_CHAIN && Good(nodes, importable, id) && id !in seen
    ensures Restore(nodes, importable, id, depth, seen).Success? <==>
            PathsGood(nodes, importable, id, MAX_CHAIN + 1 - depth, seen)
    decreases MAX_CHAIN - depth, 1
  {
    var length := MAX_CHAIN + 1 - depth;
    forall next | Linked(nodes, id, next)
      ensures Restore(nodes, importable, next, depth + 1, seen + {id}).Success? <==>
              PathsGood(nodes, importable, next, length - 1, seen + {id})
    {
      RestoreByPaths(nodes, importable, next, depth + 1, seen + {id});
    }
    RestoreByLinks(nodes, importable, id, depth, seen);
    if PathsGood(nodes, importable, id, length, seen) {
      forall next | Linked(nodes, id, next) ensures PathsGood(nodes, importable, next, length - 1, seen + {id}) {
        LinkGood(nodes, importable, id, next, length, seen);
      }
    }
    if Restore(nodes, importable, id, depth, seen).Success? {
      PathsGoodByLinks(nodes, importable, id, length, seen);
    }
  }

  /** A payload is restored exactly when no path of links from it passes more than
      seventeen payloads, and every payload on a path has an importable type and
      acceptable arguments; cyclic payloads have paths of every length. */
  lemma {:induction false} RestoresExactlyWhen<C(!new)>(nodes: Nodes<C>, importable: TypeName -> bool, id: PayloadId)
    ensures Restore(nodes, importable, id, 0, {}).Success? <==>
            forall path :: IsPath(nodes, id, path) ==> |path| <= 17 && Good(nodes, importable, path[|path| - 1])
  {
    RestoreByPaths(nodes, importable, id, 0, {});
  }
}
