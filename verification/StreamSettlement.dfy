/**
  Settlement of a task lease and of its object stream.  A task stream takes over
  an admission or gives it back; the adapter around it then releases, cancels or
  retires it, and every message to the driver, to Ray and to its core worker is
  written to one journal.
*/
module StreamSettlement {
  import opened Wrappers
  import opened Handover
  import opened Texts
  import opened Sequences

  type Lease = map<string, string>

  type GeneratorId = nat

  datatype Action =
    | MarkSubmitted(requestId: string, leaseId: string)
    | ReleaseTask(requestId: string, leaseId: string, attemptId: string)
    | CancelRequest(requestId: string, submitted: bool)
    | CancelGenerator(generator: GeneratorId)
    | DeleteStream(generator: GeneratorId)

  datatype Reply = Done | MissingKey

  datatype StreamState = StreamState(
    requestId: string,
    lease: Option<Lease>,
    generator: Option<GeneratorId>,
    submitted: bool,
    released: bool,
    cancelled: bool)

  // `attached` says that the generator still holds its worker, so that dropping
  // the last reference to it deletes the stream.
  datatype AdapterState = AdapterState(
    leased: Option<StreamState>,
    generator: Option<GeneratorId>,
    completion: bool,
    attached: bool,
    taskReleased: bool,
    retired: bool)

  datatype AdapterOp = OpRelease | OpRetire | OpCancel | OpRetireFailed

  datatype Outcome<S> = Outcome(state: S, actions: seq<Action>, reply: Reply)

  // The task stream's own calls

  function StreamRelease(s: StreamState): Outcome<StreamState> {
    if s.released || s.lease == None then
      Outcome(s, [], Done)
    else
      var lease := s.lease.value;
      var t := s.(released := true);
      if "lease_id" in lease && "attempt_id" in lease then
        Outcome(t, [ReleaseTask(s.requestId, lease["lease_id"], lease["attempt_id"])], Done)
      else
        Outcome(t, [], MissingKey)
  }

  function StreamCancel(s: StreamState): Outcome<StreamState> {
    if s.cancelled then
      Outcome(s, [], Done)
    else
      Outcome(s.(cancelled := true, released := true, generator := None),
              (if s.generator == None then [] else [CancelGenerator(s.generator.value)]) +
              [CancelRequest(s.requestId, s.submitted)],
              Done)
  }

  function StreamRetireFailed(s: StreamState): Outcome<StreamState> {
    if s.cancelled then
      Outcome(s, [], Done)
    else
      Outcome(s.(cancelled := true, released := true, generator := None),
              [CancelRequest(s.requestId, s.submitted)],
              Done)
  }

  // The adapter's calls

  function AdapterRelease(a: AdapterState): Outcome<AdapterState> {
    if a.taskReleased then
      Outcome(a, [], Done)
    else
      var b := a.(taskReleased := true);
      if a.leased == None then
        Outcome(b, [], Done)
      else
        var o := StreamRelease(a.leased.value);
        Outcome(b.(leased := Some(o.state)), o.actions, o.reply)
  }

  // Forgetting the source and deleting its stream, the common end of every
  // terminal call.
  function Dropped(a: AdapterState): AdapterState {
    AdapterState(None, None, false, a.attached && !(a.generator.Some? && a.completion), a.taskReleased, true)
  }

  function Deletion(a: AdapterState): seq<Action> {
    if a.generator.Some? && a.completion then [DeleteStream(a.generator.value)] else []
  }

  function AdapterRetire(a: AdapterState): Outcome<AdapterState> {
    if a.retired then
      Outcome(a, [], Done)
    else
      var o := AdapterRelease(a.(retired := true));
      if o.reply == MissingKey then o else Outcome(Dropped(o.state), o.actions + Deletion(a), Done)
  }

  function AdapterCancel(a: AdapterState): Outcome<AdapterState> {
    if a.retired then
      Outcome(a, [], Done)
    else
      var stop :=
        if a.leased.Some? then StreamCancel(a.leased.value).actions
        else if a.generator.Some? then [CancelGenerator(a.generator.value)]
        else [];
      Outcome(Dropped(a), stop + Deletion(a), Done)
  }

  function AdapterRetireFailed(a: AdapterState): Outcome<AdapterState> {
    if a.retired then
      Outcome(a, [], Done)
    else
      var stop := if a.leased.Some? then StreamRetireFailed(a.leased.value).actions else [];
      Outcome(Dropped(a), stop + Deletion(a), Done)
  }

  function Step(a: AdapterState, op: AdapterOp): Outcome<AdapterState> {
    match op
    case OpRelease => AdapterRelease(a)
    case OpRetire => AdapterRetire(a)
    case OpCancel => AdapterCancel(a)
    case OpRetireFailed => AdapterRetireFailed(a)
  }

  function Run(a: AdapterState, ops: seq<AdapterOp>): (AdapterState, seq<Action>)
    decreases |ops|
  {
    if ops == [] then (a, [])
    else
      var o := Step(a, ops[0]);
      var rest := Run(o.state, ops[1..]);
      (rest.0, o.actions + rest.1)
  }

  // The calls still to come take state `a`, with `sent` already sent, to `goal`.
  predicate RunsTo(a: AdapterState, rest: seq<AdapterOp>, sent: seq<Action>, goal: (AdapterState, seq<Action>)) {
    goal == (Run(a, rest).0, sent + Run(a, rest).1)
  }

  lemma {:induction false} RunAdvances(a: AdapterState, ops: seq<AdapterOp>, i: nat, sent: seq<Action>,
                                       goal: (AdapterState, seq<Action>))
    requires i < |ops| && RunsTo(a, ops[i..], sent, goal)
    ensures RunsTo(Step(a, ops[i]).state, ops[i + 1..], sent + Step(a, ops[i]).actions, goal)
  {
    var o := Step(a, ops[i]);
    assert ops[i..][0] == ops[i] && ops[i..][1..] == ops[i + 1..];
    Assoc(sent, o.actions, Run(o.state, ops[i + 1..]).1);
  }

  // What a run must send, read off the calls alone

  function FirstTerminal(ops: seq<AdapterOp>): Option<AdapterOp> {
    if ops == [] then None
    else if ops[0] != OpRelease then Some(ops[0])
    else FirstTerminal(ops[1..])
  }

  // A release is asked for before any terminal call.
  predicate ReleasesFirst(ops: seq<AdapterOp>) {
    ops != [] && ops[0] == OpRelease
  }

  predicate HasTerminal(ops: seq<AdapterOp>) {
    exists i :: 0 <= i < |ops| && ops[i] != OpRelease
  }

  lemma {:induction false} TerminalIsFound(ops: seq<AdapterOp>)
    ensures HasTerminal(ops) <==> FirstTerminal(ops).Some?
    ensures FirstTerminal(ops) != Some(OpRelease)
  {
    if ops != [] && ops[0] == OpRelease {
      TerminalIsFound(ops[1..]);
      if HasTerminal(ops) {
        var i :| 0 <= i < |ops| && ops[i] != OpRelease;
        assert ops[1..][i - 1] != OpRelease;
      }
      if HasTerminal(ops[1..]) {
        var i :| 0 <= i < |ops[1..]| && ops[1..][i] != OpRelease;
        assert ops[i + 1] != OpRelease;
      }
    }
  }

  function ReleaseMessages(requestId: string, lease: Lease): seq<Action> {
    if "lease_id" in lease && "attempt_id" in lease
    then [ReleaseTask(requestId, lease["lease_id"], lease["attempt_id"])]
    else []
  }

  function Settlement(requestId: string, lease: Lease, g: GeneratorId, ops: seq<AdapterOp>): seq<Action> {
    var early := if ReleasesFirst(ops) then ReleaseMessages(requestId, lease) else [];
    match FirstTerminal(ops)
    case None => early
    case Some(OpRelease) => early
    case Some(OpRetire) =>
      if ReleasesFirst(ops) || "attempt_id" in lease
      then ReleaseMessages(requestId, lease) + [DeleteStream(g)]
      else []
    case Some(OpCancel) => early + [CancelGenerator(g), CancelRequest(requestId, true), DeleteStream(g)]
    case Some(OpRetireFailed) => early + [CancelRequest(requestId, true), DeleteStream(g)]
  }

  // The adapter around a stream that has just been submitted.
  function Started(requestId: string, lease: Lease, g: GeneratorId): AdapterState {
    AdapterState(Some(StreamState(requestId, Some(lease), Some(g), true, false, false)),
                 Some(g), true, true, false, false)
  }

  // The same adapter once a release has been asked for.
  function Released(requestId: string, lease: Lease, g: GeneratorId): AdapterState {
    AdapterState(Some(StreamState(requestId, Some(lease), Some(g), true, true, false)),
                 Some(g), true, true, true, false)
  }

  // A retired adapter has nothing left to send.
  predicate Finished(a: AdapterState) {
    a.retired && (a.leased == None || a.taskReleased)
  }

  lemma {:induction false} FinishedIsSilent(a: AdapterState, ops: seq<AdapterOp>)
    requires Finished(a)
    ensures Run(a, ops).1 == [] && Run(a, ops).0.attached == a.attached
    decreases |ops|
  {
    if ops != [] {
      var o := Step(a, ops[0]);
      assert Finished(o.state) && o.actions == [] && o.state.attached == a.attached;
      FinishedIsSilent(o.state, ops[1..]);
    }
  }

  lemma {:induction false} ReleasedRun(requestId: string, lease: Lease, g: GeneratorId, ops: seq<AdapterOp>)
    ensures var run := Run(Released(requestId, lease, g), ops);
            && run.1 == match FirstTerminal(ops)
                        case None => []
                        case Some(OpRelease) => []
                        case Some(OpRetire) => [DeleteStream(g)]
                        case Some(OpCancel) => [CancelGenerator(g), CancelRequest(requestId, true), DeleteStream(g)]
                        case Some(OpRetireFailed) => [CancelRequest(requestId, true), DeleteStream(g)]
    ensures Run(Released(requestId, lease, g), ops).0.attached == FirstTerminal(ops).None?
    decreases |ops|
  {
    if ops != [] {
      var a := Released(requestId, lease, g);
      var o := Step(a, ops[0]);
      if ops[0] == OpRelease {
        assert o.state == a && o.actions == [];
        ReleasedRun(requestId, lease, g, ops[1..]);
      } else {
        assert Finished(o.state) && !o.state.attached;
        FinishedIsSilent(o.state, ops[1..]);
      }
    }
  }

  // Whether the run ends with the stream deleted.
  predicate DeletesStream(lease: Lease, ops: seq<AdapterOp>) {
    && FirstTerminal(ops).Some?
    && (FirstTerminal(ops) != Some(OpRetire) || ReleasesFirst(ops) || "attempt_id" in lease)
  }

  /** Every run of the adapter sends exactly the messages that its calls ask for. */
  lemma {:induction false} RunSettles(requestId: string, lease: Lease, g: GeneratorId, ops: seq<AdapterOp>)
    requires "lease_id" in lease
    ensures Run(Started(requestId, lease, g), ops).1 == Settlement(requestId, lease, g, ops)
    ensures Run(Started(requestId, lease, g), ops).0.attached == !DeletesStream(lease, ops)
  {
    if ops != [] {
      var a := Started(requestId, lease, g);
      var o := Step(a, ops[0]);
      if ops[0] == OpRelease {
        assert o.state == Released(requestId, lease, g);
        assert o.actions == ReleaseMessages(requestId, lease);
        ReleasedRun(requestId, lease, g, ops[1..]);
      } else {
        assert Finished(o.state);
        FinishedIsSilent(o.state, ops[1..]);
        assert o.actions == Settlement(requestId, lease, g, ops);
        assert Run(a, ops).1 == o.actions + [];
      }
    }
  }

  // Reading a journal

  predicate AtMostOneRelease(log: seq<Action>) {
    forall i, j :: 0 <= i < j < |log| ==> !(log[i].ReleaseTask? && log[j].ReleaseTask?)
  }

  predicate AtMostOneCancel(log: seq<Action>) {
    forall i, j :: 0 <= i < j < |log| ==> !(log[i].CancelRequest? && log[j].CancelRequest?)
  }

  predicate NoReleaseAfterCancel(log: seq<Action>) {
    forall i, j :: 0 <= i < j < |log| ==> !(log[i].CancelRequest? && log[j].ReleaseTask?)
  }

  predicate LeaseSettled(log: seq<Action>) {
    exists i :: 0 <= i < |log| && (log[i].ReleaseTask? || log[i].CancelRequest?)
  }

  predicate DeletedOnce(log: seq<Action>, g: GeneratorId) {
    exists i :: 0 <= i < |log| && log[i] == DeleteStream(g) && NoDelete(log[..i]) && NoDelete(log[i + 1..])
  }

  predicate NoDelete(log: seq<Action>) {
    forall i :: 0 <= i < |log| ==> !log[i].DeleteStream?
  }

  lemma {:induction false} SettlementPlaces(requestId: string, lease: Lease, g: GeneratorId, ops: seq<AdapterOp>)
    ensures var log := Settlement(requestId, lease, g, ops);
            forall i :: 0 <= i < |log| ==>
              && (log[i].ReleaseTask? ==> i == 0)
              && (log[i].CancelRequest? ==> i == |log| - 2)
  {
  }

  /** No run repeats a message or releases what it has cancelled. */
  lemma {:induction false} MessagesSentOnce(requestId: string, lease: Lease, g: GeneratorId, ops: seq<AdapterOp>)
    requires "lease_id" in lease
    ensures var log := Run(Started(requestId, lease, g), ops).1;
            AtMostOneRelease(log) && AtMostOneCancel(log) && NoReleaseAfterCancel(log)
  {
    RunSettles(requestId, lease, g, ops);
    SettlementPlaces(requestId, lease, g, ops);
    var log := Settlement(requestId, lease, g, ops);
    PlacedOnce(log);
  }

  lemma {:induction false} PlacedOnce(log: seq<Action>)
    requires forall i :: 0 <= i < |log| ==>
               && (log[i].ReleaseTask? ==> i == 0)
               && (log[i].CancelRequest? ==> i == |log| - 2)
    ensures AtMostOneRelease(log) && AtMostOneCancel(log) && NoReleaseAfterCancel(log)
  {
  }

  lemma {:induction false} EndsWithDelete(log: seq<Action>, g: GeneratorId)
    requires NoDelete(log)
    ensures DeletedOnce(log + [DeleteStream(g)], g)
  {
    var all := log + [DeleteStream(g)];
    assert all[|log|] == DeleteStream(g) && all[..|log|] == log && all[|log| + 1..] == [];
  }

  lemma {:induction false} SettlementDeletes(requestId: string, lease: Lease, g: GeneratorId, ops: seq<AdapterOp>)
    requires "lease_id" in lease
    ensures if DeletesStream(lease, ops)
            then DeletedOnce(Settlement(requestId, lease, g, ops), g)
            else NoDelete(Settlement(requestId, lease, g, ops))
  {
    var log := Settlement(requestId, lease, g, ops);
    TerminalIsFound(ops);
    if DeletesStream(lease, ops) {
      assert log == log[..|log| - 1] + [DeleteStream(g)];
      EndsWithDelete(log[..|log| - 1], g);
    }
  }

  /** After a terminal call the lease is settled unless the first terminal call
      was a retire and the lease carries no attempt id. */
  lemma {:induction false} LeaseSettledExactlyWhen(requestId: string, lease: Lease, g: GeneratorId, ops: seq<AdapterOp>)
    requires "lease_id" in lease && HasTerminal(ops)
    ensures LeaseSettled(Run(Started(requestId, lease, g), ops).1) <==>
            "attempt_id" in lease || FirstTerminal(ops) != Some(OpRetire)
  {
    RunSettles(requestId, lease, g, ops);
    TerminalIsFound(ops);
    if FirstTerminal(ops) == Some(OpRetire) {
      RetiredSettles(requestId, lease, g, ops);
    } else {
      CancelledSettles(requestId, lease, g, ops);
    }
  }

  lemma {:induction false} RetiredSettles(requestId: string, lease: Lease, g: GeneratorId, ops: seq<AdapterOp>)
    requires "lease_id" in lease && FirstTerminal(ops) == Some(OpRetire)
    ensures LeaseSettled(Settlement(requestId, lease, g, ops)) <==> "attempt_id" in lease
  {
    var log := Settlement(requestId, lease, g, ops);
    if "attempt_id" in lease {
      assert log[0].ReleaseTask?;
    } else {
      assert |log| <= 1 && (log == [] || log[0] == DeleteStream(g));
    }
  }

  lemma {:induction false} CancelledSettles(requestId: string, lease: Lease, g: GeneratorId, ops: seq<AdapterOp>)
    requires FirstTerminal(ops) == Some(OpCancel) || FirstTerminal(ops) == Some(OpRetireFailed)
    ensures LeaseSettled(Settlement(requestId, lease, g, ops))
  {
    var log := Settlement(requestId, lease, g, ops);
    assert log[|log| - 2] == CancelRequest(requestId, true);
  }

  /** After a terminal call the stream is deleted exactly once, unless the first
      call was a retire and the lease carries no attempt id: then it never is. */
  lemma {:induction false} StreamDeletedExactlyWhen(requestId: string, lease: Lease, g: GeneratorId,
                                                    ops: seq<AdapterOp>)
    requires "lease_id" in lease && HasTerminal(ops)
    ensures var log := Run(Started(requestId, lease, g), ops).1;
            if "attempt_id" in lease || ops[0] != OpRetire
            then DeletedOnce(log, g) else NoDelete(log)
  {
    RunSettles(requestId, lease, g, ops);
    TerminalIsFound(ops);
    SettlementDeletes(requestId, lease, g, ops);
  }

  // The promise of the settlement protocol for one run.
  predicate Settled(log: seq<Action>, g: GeneratorId) {
    LeaseSettled(log) && DeletedOnce(log, g)
  }

  /** Every run with a terminal call settles exactly when the lease carries an
      attempt id. */
  lemma {:induction false} EveryRunSettlesExactlyWhen(requestId: string, lease: Lease, g: GeneratorId)
    requires "lease_id" in lease
    ensures (forall ops :: HasTerminal(ops) ==> Settled(Run(Started(requestId, lease, g), ops).1, g)) <==>
            "attempt_id" in lease
  {
    if "attempt_id" in lease {
      forall ops | HasTerminal(ops)
        ensures Settled(Run(Started(requestId, lease, g), ops).1, g)
      {
        LeaseSettledExactlyWhen(requestId, lease, g, ops);
        StreamDeletedExactlyWhen(requestId, lease, g, ops);
      }
    } else {
      var ops := [OpRetire];
      assert ops[0] != OpRelease;
      LeaseSettledExactlyWhen(requestId, lease, g, ops);
      assert !Settled(Run(Started(requestId, lease, g), ops).1, g);
    }
  }

  /** A lease without an attempt id: retiring raises, nothing is sent, and a later
      cancel finds the adapter retired. */
  lemma {:induction false} LeaseLostWithoutAttempt(g: GeneratorId)
    ensures var lease := map["lease_id" := "lease"];
            && Step(Started("request", lease, g), OpRetire).reply == MissingKey
            && Run(Started("request", lease, g), [OpRetire, OpCancel]).1 == []
  {
    var lease := map["lease_id" := "lease"];
    RunSettles("request", lease, g, [OpRetire, OpCancel]);
  }

  function BareSettlement(g: GeneratorId, ops: seq<AdapterOp>): seq<Action> {
    match FirstTerminal(ops)
    case None => []
    case Some(OpRelease) => []
    case Some(OpCancel) => [CancelGenerator(g), DeleteStream(g)]
    case Some(OpRetire) => [DeleteStream(g)]
    case Some(OpRetireFailed) => [DeleteStream(g)]
  }

  /** An adapter around a bare generator sends no lease message and deletes the
      stream exactly once, at the first terminal call. */
  lemma {:induction false} BareRun(g: GeneratorId, taskReleased: bool, ops: seq<AdapterOp>)
    ensures Run(AdapterState(None, Some(g), true, true, taskReleased, false), ops).1 == BareSettlement(g, ops)
    decreases |ops|
  {
    if ops != [] {
      var a := AdapterState(None, Some(g), true, true, taskReleased, false);
      var o := Step(a, ops[0]);
      if ops[0] == OpRelease {
        BareRun(g, true, ops[1..]);
      } else {
        assert Finished(o.state);
        FinishedIsSilent(o.state, ops[1..]);
      }
    }
  }

  // The objects

  class Journal {
    var log: seq<Action>

    constructor ()
      ensures log == []
    {
      log := [];
    }

    method Append(action: Action)
      modifies this
      ensures log == old(log) + [action]
    {
      log := log + [action];
    }
  }

  class Generator {
    const id: GeneratorId
    var attached: bool

    constructor (id: GeneratorId)
      ensures this.id == id && attached
    {
      this.id, attached := id, true;
    }
  }

  // An admission may come without a driver.
  datatype Admission<C> = Admission(requestId: string, lease: Lease, driver: Journal?, handle: ReleaseHandle<C>)

  datatype StartError = ContractMissing | IdentityMissing | SubmitFailed | HandoffRefused | DriverMissing

  predicate HasIdentity<C>(admission: Admission<C>) {
    && Strip(admission.requestId) != ""
    && "lease_id" in admission.lease && admission.lease["lease_id"] != ""
  }

  class TaskStream {
    const requestId: string
    const driver: Journal
    var lease: Option<Lease>
    var generator: Option<Generator>
    var submitted: bool
    var released: bool
    var cancelled: bool

    ghost function View(): StreamState
      reads this
    {
      StreamState(requestId, lease, if generator == None then None else Some(generator.value.id),
                  submitted, released, cancelled)
    }

    constructor (requestId: string, driver: Journal, lease: Lease, generator: Generator)
      ensures this.driver == driver && this.generator == Some(generator)
      ensures View() == StreamState(requestId, Some(lease), Some(generator.id), false, false, false)
    {
      this.requestId, this.driver := requestId, driver;
      this.lease, this.generator := Some(lease), Some(generator);
      submitted, released, cancelled := false, false, false;
    }

    method Release() returns (reply: Reply)
      modifies this, driver
      ensures var o := StreamRelease(old(View()));
              View() == o.state && driver.log == old(driver.log) + o.actions && reply == o.reply
      ensures generator == old(generator)
    {
      if released || lease == None {
        return Done;
      }
      released := true;
      var held := lease.value;
      if "lease_id" !in held || "attempt_id" !in held {
        return MissingKey;
      }
      driver.Append(ReleaseTask(requestId, held["lease_id"], held["attempt_id"]));
      return Done;
    }

    method Cancel()
      modifies this, driver
      ensures var o := StreamCancel(old(View()));
              View() == o.state && driver.log == old(driver.log) + o.actions
    {
      if cancelled {
        return;
      }
      cancelled := true;
      var running := generator;
      released := true;
      generator := None;
      if running != None {
        driver.Append(CancelGenerator(running.value.id));
      }
      driver.Append(CancelRequest(requestId, submitted));
    }

    method RetireFailed()
      modifies this, driver
      ensures var o := StreamRetireFailed(old(View()));
              View() == o.state && driver.log == old(driver.log) + o.actions
    {
      if cancelled {
        return;
      }
      cancelled := true;
      released := true;
      generator := None;
      driver.Append(CancelRequest(requestId, submitted));
    }

    method RetireLocalState()
      modifies this
      ensures View() == old(View()).(generator := None, lease := None)
    {
      generator := None;
      lease := None;
    }
  }

  // The stream gets as far as being handed the lease.
  predicate Submits<C>(admission: Admission<C>, contractOk: bool, submission: Option<Generator>) {
    && contractOk && submission.Some?
    && (exists i :: 0 <= i < |admission.requestId| && !IsBlank(admission.requestId[i]))
    && "lease_id" in admission.lease && admission.lease["lease_id"] != ""
  }

  /** Building a stream settles the admission: it either gives the slot back through
      the release callback or hands the lease to the stream, and then tells the
      driver.  An admission without a driver is handed over to a stream that is
      never returned: nobody is left to give its lease back.  `contractOk` is the Ray
      contract check and `submission` what the submitter returned, if it did not
      raise. */
  method StartStream<C>(admission: Admission<C>, contractOk: bool, submission: Option<Generator>)
      returns (r: Result<TaskStream, StartError>, called: Option<C>)
    modifies admission.handle, admission.driver
    ensures admission.handle.released
    ensures old(admission.handle.released) ==> r.Failure? && called == None
    ensures !old(admission.handle.released) ==>
              && (r.Success? <==> Submits(admission, contractOk, submission) && admission.driver != null)
              && (r == Failure(DriverMissing) <==>
                  Submits(admission, contractOk, submission) && admission.driver == null)
              && called == (if Submits(admission, contractOk, submission) then None else old(admission.handle.callback))
              && admission.handle.callback == None
    ensures r.Failure? && admission.driver != null ==> admission.driver.log == old(admission.driver.log)
    ensures r.Success? ==>
              && fresh(r.value) && r.value.driver == admission.driver && r.value.generator == submission
              && r.value.View() == StreamState(Strip(admission.requestId), Some(admission.lease),
                                               Some(submission.value.id), true, false, false)
              && admission.driver.log == old(admission.driver.log) +
                   [MarkSubmitted(Strip(admission.requestId), admission.lease["lease_id"])]
  {
    StripsToNothing(admission.requestId);
    if !contractOk {
      called := admission.handle.Release();
      return Failure(ContractMissing), called;
    }
    if !HasIdentity(admission) {
      called := admission.handle.Release();
      return Failure(IdentityMissing), called;
    }
    if submission == None {
      called := admission.handle.Release();
      return Failure(SubmitFailed), called;
    }
    var handed := admission.handle.Handoff();
    if handed.Failure? {
      return Failure(HandoffRefused), None;
    }
    if admission.driver == null {
      return Failure(DriverMissing), None;
    }
    var stream := new TaskStream(Strip(admission.requestId), admission.driver, admission.lease, submission.value);
    stream.submitted := true;
    admission.driver.Append(MarkSubmitted(stream.requestId, admission.lease["lease_id"]));
    return Success(stream), None;
  }

  /** An admission that is complete but for its driver: building the stream fails and
      the release callback does not run. */
  method LeaseLostWithoutDriver<C>(callback: C, g: Generator) returns (failed: bool, called: Option<C>)
    ensures failed && called == None
  {
    var handle := new ReleaseHandle(Some(callback));
    var admission := Admission("request", map["lease_id" := "lease"], null, handle);
    assert Strip("request") == "request";
    var r;
    r, called := StartStream(admission, true, Some(g));
    failed := r.Failure?;
  }

  class RayStreamAdapter {
    const ray: Journal
    var leased: TaskStream?
    var generator: Generator?
    var completion: bool
    var taskReleased: bool
    var retired: bool
    // The generator the adapter was built around, which it forgets on retiring.
    ghost const origin: Generator?

    ghost predicate Valid()
      reads this, leased
    {
      && (leased != null ==> leased.driver == ray)
      && (generator != null ==> generator == origin)
    }

    ghost function View(): AdapterState
      reads this, leased, origin
    {
      AdapterState(if leased == null then None else Some(leased.View()),
                   if generator == null then None else Some(generator.id),
                   completion, origin != null && origin.attached, taskReleased, retired)
    }

    // The adapter refers to nothing it did not refer to before.
    predicate Keeps(stream: TaskStream?, source: Generator?)
      reads this
    {
      (leased == null || leased == stream) && (generator == null || generator == source)
    }

    constructor FromStream(stream: TaskStream)
      ensures Valid() && ray == stream.driver && leased == stream
      ensures stream.generator.Some? ==> origin == stream.generator.value
      ensures View() == AdapterState(Some(stream.View()), stream.View().generator, stream.generator.Some?,
                                     stream.generator.Some? && stream.generator.value.attached, false, false)
    {
      ray, leased := stream.driver, stream;
      generator := if stream.generator == None then null else stream.generator.value;
      origin := if stream.generator == None then null else stream.generator.value;
      completion := stream.generator.Some?;
      taskReleased, retired := false, false;
    }

    constructor FromGenerator(bare: Generator, ray: Journal)
      ensures Valid() && this.ray == ray && origin == bare && leased == null
      ensures View() == AdapterState(None, Some(bare.id), true, bare.attached, false, false)
    {
      this.ray, leased, generator, origin := ray, null, bare, bare;
      completion, taskReleased, retired := true, false, false;
    }

    method ReleaseTask() returns (reply: Reply)
      requires Valid()
      modifies this, leased, ray
      ensures Valid() && leased == old(leased) && generator == old(generator)
      ensures var o := AdapterRelease(old(View()));
              View() == o.state && ray.log == old(ray.log) + o.actions && reply == o.reply
    {
      if taskReleased {
        return Done;
      }
      taskReleased := true;
      if leased == null {
        return Done;
      }
      reply := leased.Release();
    }

    method DeleteObjectRefStream(stream: Generator)
      modifies ray, stream
      ensures !stream.attached && ray.log == old(ray.log) + [DeleteStream(stream.id)]
    {
      ray.Append(DeleteStream(stream.id));
      stream.attached := false;
    }

    // Forgets the source, then deletes its stream.
    method Drop()
      requires Valid()
      modifies this, ray, generator
      ensures Valid() && leased == null && generator == null
      ensures ray.log == old(ray.log) + Deletion(old(View()))
      ensures View() == Dropped(old(View())).(retired := old(retired))
    {
      var stream := generator;
      var deletable := completion;
      leased, generator, completion := null, null, false;
      if stream != null && deletable {
        DeleteObjectRefStream(stream);
      }
    }

    method Retire() returns (reply: Reply)
      requires Valid()
      modifies this, leased, generator, ray
      ensures Valid() && Keeps(old(leased), old(generator))
      ensures var o := AdapterRetire(old(View()));
              View() == o.state && ray.log == old(ray.log) + o.actions && reply == o.reply
    {
      if retired {
        return Done;
      }
      retired := true;
      reply := ReleaseTask();
      if reply == MissingKey {
        return;
      }
      DropLeased();
    }

    // Forgets the stream's own state as well.
    method DropLeased()
      requires Valid()
      modifies this, leased, generator, ray
      ensures Valid() && leased == null && generator == null
      ensures ray.log == old(ray.log) + Deletion(old(View()))
      ensures View() == Dropped(old(View())).(retired := old(retired))
    {
      if leased != null {
        leased.RetireLocalState();
      }
      Drop();
    }

    method Cancel()
      requires Valid()
      modifies this, leased, generator, ray
      ensures Valid() && Keeps(old(leased), old(generator))
      ensures var o := AdapterCancel(old(View()));
              View() == o.state && ray.log == old(ray.log) + o.actions
    {
      if retired {
        return;
      }
      retired := true;
      if leased != null {
        leased.Cancel();
        leased.RetireLocalState();
      } else if generator != null {
        ray.Append(CancelGenerator(generator.id));
      }
      Drop();
    }

    method RetireFailed()
      requires Valid()
      modifies this, leased, generator, ray
      ensures Valid() && Keeps(old(leased), old(generator))
      ensures var o := AdapterRetireFailed(old(View()));
              View() == o.state && ray.log == old(ray.log) + o.actions
    {
      if retired {
        return;
      }
      retired := true;
      if leased != null {
        leased.RetireFailed();
        leased.RetireLocalState();
      }
      Drop();
    }

    method Perform(op: AdapterOp) returns (reply: Reply)
      requires Valid()
      modifies this, leased, generator, ray
      ensures Valid() && Keeps(old(leased), old(generator))
      ensures var o := Step(old(View()), op);
              View() == o.state && ray.log == old(ray.log) + o.actions && reply == o.reply
    {
      reply := Done;
      match op
      case OpRelease => reply := ReleaseTask();
      case OpRetire => reply := Retire();
      case OpCancel => Cancel();
      case OpRetireFailed => RetireFailed();
    }

    /** Any series of calls leaves the journal and the adapter as the state
        machine says. */
    method PerformAll(ops: seq<AdapterOp>)
      requires Valid()
      modifies this, leased, generator, ray
      ensures Valid()
      ensures var run := Run(old(View()), ops); View() == run.0 && ray.log == old(ray.log) + run.1
    {
      ghost var goal := Run(View(), ops);
      ghost var sent: seq<Action> := [];
      var i := 0;
      assert ops[0..] == ops && sent + goal.1 == goal.1;
      while i < |ops|
        invariant 0 <= i <= |ops|
        invariant Valid() && Keeps(old(leased), old(generator))
        invariant ray.log == old(ray.log) + sent
        invariant RunsTo(View(), ops[i..], sent, goal)
      {
        ghost var actions := Step(View(), ops[i]).actions;
        RunAdvances(View(), ops, i, sent, goal);
        Assoc(old(ray.log), sent, actions);
        var _ := Perform(ops[i]);
        sent := sent + actions;
        i := i + 1;
      }
    }
  }

  /** From a fresh admission to the end of any series of adapter calls: either the
      release callback runs and nothing is sent, or the driver, if there is one, is
      told once of the submission and then gets exactly the settlement of the calls. */
  method SettleTask<C>(admission: Admission<C>, contractOk: bool, submission: Option<Generator>, ops: seq<AdapterOp>)
      returns (called: Option<C>)
    requires !admission.handle.released
    requires submission.Some? ==> submission.value.attached
    modifies admission.handle, admission.driver
    modifies if submission.Some? then {submission.value} else {}
    ensures admission.handle.released
    ensures called == if Submits(admission, contractOk, submission) then None else old(admission.handle.callback)
    ensures admission.driver != null ==>
              if Submits(admission, contractOk, submission) then
                && admission.driver.log ==
                     old(admission.driver.log) +
                     ([MarkSubmitted(Strip(admission.requestId), admission.lease["lease_id"])] +
                      Settlement(Strip(admission.requestId), admission.lease, submission.value.id, ops))
                && submission.value.attached == !DeletesStream(admission.lease, ops)
              else
                admission.driver.log == old(admission.driver.log)
  {
    var started;
    started, called := StartStream(admission, contractOk, submission);
    if started.Failure? {
      return;
    }
    var adapter := new RayStreamAdapter.FromStream(started.value);
    RunSettles(Strip(admission.requestId), admission.lease, submission.value.id, ops);
    assert adapter.View() == Started(Strip(admission.requestId), admission.lease, submission.value.id);
    adapter.PerformAll(ops);
    Assoc(old(admission.driver.log),
          [MarkSubmitted(Strip(admission.requestId), admission.lease["lease_id"])],
          Settlement(Strip(admission.requestId), admission.lease, submission.value.id, ops));
  }

  /** The same around a generator that holds no lease. */
  method SettleBare(bare: Generator, ray: Journal, ops: seq<AdapterOp>)
    requires bare.attached
    modifies bare, ray
    ensures ray.log == old(ray.log) + BareSettlement(bare.id, ops)
  {
    var adapter := new RayStreamAdapter.FromGenerator(bare, ray);
    BareRun(bare.id, false, ops);
    adapter.PerformAll(ops);
  }
}
