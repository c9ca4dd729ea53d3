/** Connection.Close as a step system: any number of callers race through one sync.Once, one worker
    goroutine, the closeDone channel and the plain closeErr field, while contexts are canceled and
    sockets are forced shut at any point.

    A state changes by events. `Step` is the whole semantics: it gives the next state, or None when the
    event cannot happen. Results of library calls are carried by the events, so every result the library
    could give is some run. */
module CloseProtocol {
  import opened Basics
  import opened Errors

  type CallId = nat
  type Context = nat

  /** One call of Close (a missing context is Go's nil) or of closeNow. */
  datatype Call =
    | CloseCall(ctx: Option<Context>, status: int, reason: string)
    | ForceCall

  datatype Exit = Rejected | AlreadyCanceled | Completed | Interrupted | Forced

  /** Where a caller stands. */
  datatype Phase =
    | Validating                           // before the argument checks
    | CheckingContext                      // before the already-canceled check
    | ForcingFirst(cause: Err)             // inside closeNow, context already canceled
    | EnteringOnce                         // before closeOnce.Do
    | Spawning                             // inside the once body
    | Selecting                            // at the select
    | Forcing                              // inside CloseNow, on the cancel branch
    | AwaitingWorker(forced: Option<Err>)  // at the receive that follows it
    | ForcingOnly                          // a closeNow call of its own
    | Returned(exit: Exit, result: Option<Err>)

  datatype Caller = Caller(call: Call, phase: Phase)

  datatype Once = Unused | Running(winner: CallId) | Complete

  /** The handshake goroutine; `saw` is what native.Close returned to it. */
  datatype Worker =
    | Absent
    | Spawned(status: int, reason: string)
    | Handshaking
    | Handling(saw: Option<Err>)
    | Stored(saw: Option<Err>)
    | Finished(saw: Option<Err>)

  datatype State = State(
    connected: bool,
    callers: map<CallId, Caller>,
    causes: map<Context, Err>,
    once: Once,
    worker: Worker,
    closeErr: Option<Err>,
    done: bool)

  datatype Event =
    | Arrive(id: CallId, call: Call)
    | CancelContext(ctx: Context, cause: Err)
    | Validate(id: CallId)
    | CheckContext(id: CallId)
    | EnterOnce(id: CallId)
    | Spawn(id: CallId)
    | SkipOnce(id: CallId)
    | TakeDone(id: CallId)
    | TakeCancel(id: CallId)
    | ForceReturns(id: CallId, err: Option<Err>)
    | AwaitDone(id: CallId)
    | StartHandshake(status: int, reason: string)
    | HandshakeReturns(err: Option<Err>)
    | StoreResult
    | SignalDone

  // ----- the code -----

  /** validStatus */
  predicate ValidStatus(status: int) {
    status == NORMAL_CLOSURE || status == GOING_AWAY || status == POLICY_VIOLATION || status == INTERNAL_ERROR
  }

  predicate SafeReason(reason: string) {
    |reason| <= 123 && '\0' !in reason && '\r' !in reason && '\n' !in reason
  }

  /** The argument checks at the head of Close, in order. */
  function ArgumentError(connected: bool, call: Call): Option<Err>
    requires call.CloseCall?
  {
    if call.ctx.None? then Some(Opaque("close WebSocket: context is nil"))
    else if !connected then Some(Opaque("close WebSocket: connection is invalid"))
    else if !ValidStatus(call.status) then Some(Opaque("close WebSocket: unsupported status code"))
    else if !SafeReason(call.reason) then
      Some(Opaque("close WebSocket: reason must contain at most 123 safe bytes"))
    else None
  }

  /** context.Cause of the context a call was made with. */
  function CauseOf(s: State, call: Call): Option<Err> {
    if call.CloseCall? && call.ctx.Some? && call.ctx.value in s.causes then Some(s.causes[call.ctx.value]) else None
  }

  /** errors.Join of the wrapped cause and the wrapped result of a forced close. */
  function CancelReport(cause: Err, operation: string, forced: Option<Err>): Err {
    Join([Wrap("close WebSocket", cause)] + (if forced.Some? then [Wrap(operation, forced.value)] else []))
  }

  /** Results of native.Close that leave closeErr nil. */
  predicate Benign(saw: Option<Err>) {
    saw.None? || Contains(saw.value, NetClosed)
  }

  /** The code a caller runs: its next phase, if event `e` is its next step. */
  function NextPhase(s: State, c: Caller, e: Event): Option<Phase> {
    match e
    case Validate(_) =>
      if !c.phase.Validating? || !c.call.CloseCall? then None
      else
        var problem := ArgumentError(s.connected, c.call);
        Some(if problem.Some? then Returned(Rejected, problem) else CheckingContext)
    case CheckContext(_) =>
      if !c.phase.CheckingContext? then None
      else
        var cause := CauseOf(s, c.call);
        Some(if cause.Some? then ForcingFirst(cause.value) else EnteringOnce)
    case EnterOnce(_) => if c.phase.EnteringOnce? && s.once.Unused? then Some(Spawning) else None
    case Spawn(_) => if c.phase.Spawning? && c.call.CloseCall? then Some(Selecting) else None
    case SkipOnce(_) => if c.phase.EnteringOnce? && s.once.Complete? then Some(Selecting) else None
    case TakeDone(_) => if c.phase.Selecting? && s.done then Some(Returned(Completed, s.closeErr)) else None
    case TakeCancel(_) => if c.phase.Selecting? && CauseOf(s, c.call).Some? then Some(Forcing) else None
    case ForceReturns(_, err) => (
      match c.phase
      case ForcingFirst(cause) =>
        Some(Returned(AlreadyCanceled, Some(CancelReport(cause, "force close WebSocket", err))))
      case Forcing => Some(AwaitingWorker(err))
      case ForcingOnly =>
        if !s.connected && err.Some? then None
        else Some(Returned(Forced, if err.Some? then Some(Wrap("force close WebSocket", err.value)) else None))
      case _ => None
    )
    case AwaitDone(_) =>
      if !c.phase.AwaitingWorker? || !s.done || CauseOf(s, c.call).None? then None
      else
        Some(Returned(Interrupted,
                      Some(CancelReport(CauseOf(s, c.call).value, "close WebSocket: force close", c.phase.forced))))
    case _ => None
  }

  /** The code of the once body and of the goroutine it starts. */
  function NextWorker(s: State, e: Event): Option<Worker> {
    match e
    case StartHandshake(status, reason) => if s.worker == Spawned(status, reason) then Some(Handshaking) else None
    case HandshakeReturns(err) => if s.worker.Handshaking? then Some(Handling(err)) else None
    case StoreResult => if s.worker.Handling? then Some(Stored(s.worker.saw)) else None
    case SignalDone => if s.worker.Stored? then Some(Finished(s.worker.saw)) else None
    case _ => None
  }

  predicate WorkerEvent(e: Event) {
    e.StartHandshake? || e.HandshakeReturns? || e.StoreResult? || e.SignalDone?
  }

  /** Steps of the code itself; arrivals and cancellations are the environment's. */
  predicate Internal(e: Event) {
    !e.Arrive? && !e.CancelContext?
  }

  function Step(s: State, e: Event): Option<State> {
    if e.Arrive? then
      if e.id in s.callers then None
      else
        var entry := if e.call.ForceCall? then ForcingOnly else Validating;
        Some(s.(callers := s.callers[e.id := Caller(e.call, entry)]))
    else if e.CancelContext? then
      if e.ctx in s.causes then None else Some(s.(causes := s.causes[e.ctx := e.cause]))
    else if WorkerEvent(e) then
      var next := NextWorker(s, e);
      if next.None? then None
      else if e.StoreResult? && !Benign(s.worker.saw) then
        Some(s.(worker := next.value,
                closeErr := Some(Sanitize("close WebSocket handshake", None, s.worker.saw.value))))
      else if e.SignalDone? then Some(s.(worker := next.value, done := true))
      else Some(s.(worker := next.value))
    else if e.id !in s.callers then None
    else
      var c := s.callers[e.id];
      var next := NextPhase(s, c, e);
      if next.None? then None
      else
        var moved := s.(callers := s.callers[e.id := c.(phase := next.value)]);
        if e.EnterOnce? then Some(moved.(once := Running(e.id)))
        else if e.Spawn? then Some(moved.(once := Complete, worker := Spawned(c.call.status, c.call.reason)))
        else Some(moved)
  }

  /** A connection fresh from newConnection; contexts may be canceled already. */
  predicate Initial(s: State) {
    s.callers == map[] && s.once.Unused? && s.worker.Absent? && s.closeErr.None? && !s.done
  }

  /** The state after a sequence of events, if they can happen in that order. */
  ghost function Exec(s: State, es: seq<Event>): Option<State> {
    if es == [] then Some(s)
    else
      var before := Exec(s, es[..|es| - 1]);
      if before.None? then None else Step(before.value, es[|es| - 1])
  }

  lemma {:induction false} ExecOneMore(s: State, es: seq<Event>, e: Event)
    ensures Exec(s, es + [e]) == if Exec(s, es).None? then None else Step(Exec(s, es).value, e)
  {
    assert (es + [e])[..|es|] == es;
  }

  // ----- what every step keeps -----

  /** The call passed the argument checks. */
  predicate Accepted(s: State, call: Call) {
    call.CloseCall? && ArgumentError(s.connected, call).None?
  }

  /** What the stored error must be, given what the library reported. */
  function StoredError(saw: Option<Err>): Option<Err> {
    if Benign(saw) then None else Some(Sanitize("close WebSocket handshake", None, saw.value))
  }

  ghost predicate CallerInv(s: State, id: CallId, c: Caller) {
    match c.phase
    case Validating => c.call.CloseCall?
    case CheckingContext => Accepted(s, c.call)
    case ForcingFirst(cause) => Accepted(s, c.call) && CauseOf(s, c.call) == Some(cause)
    case EnteringOnce => Accepted(s, c.call)
    case Spawning => Accepted(s, c.call) && s.once == Running(id)
    case Selecting => Accepted(s, c.call) && s.once.Complete?
    case Forcing => Accepted(s, c.call) && s.once.Complete? && CauseOf(s, c.call).Some?
    case AwaitingWorker(_) => Accepted(s, c.call) && s.once.Complete? && CauseOf(s, c.call).Some?
    case ForcingOnly => c.call.ForceCall?
    case Returned(Rejected, r) => c.call.CloseCall? && r == ArgumentError(s.connected, c.call) && r.Some?
    case Returned(AlreadyCanceled, r) =>
      Accepted(s, c.call) && CauseOf(s, c.call).Some? && ReportsCause(r, CauseOf(s, c.call).value)
    case Returned(Completed, r) => Accepted(s, c.call) && s.done && r == s.closeErr
    case Returned(Interrupted, r) =>
      Accepted(s, c.call) && s.done && CauseOf(s, c.call).Some? && ReportsCause(r, CauseOf(s, c.call).value)
    case Returned(Forced, r) => c.call.ForceCall?
  }

  /** A join that begins with the wrapped cause. */
  ghost predicate ReportsCause(r: Option<Err>, cause: Err) {
    r.Some? && r.value.Join? && r.value.errs != [] && r.value.errs[0] == Wrap("close WebSocket", cause)
  }

  ghost predicate SharedInv(s: State) {
    (s.once.Running? ==> s.once.winner in s.callers && s.callers[s.once.winner].phase.Spawning?) &&
    (s.once.Complete? <==> !s.worker.Absent?) &&
    (s.worker.Spawned? ==> ValidStatus(s.worker.status) && SafeReason(s.worker.reason)) &&
    (s.done <==> s.worker.Finished?) &&
    s.closeErr == (if s.worker.Stored? || s.worker.Finished? then StoredError(s.worker.saw) else None)
  }

  ghost predicate Inv(s: State) {
    SharedInv(s) && forall id :: id in s.callers ==> CallerInv(s, id, s.callers[id])
  }

  lemma {:induction false} StepKeepsShared(s: State, e: Event, t: State)
    requires Inv(s) && Step(s, e) == Some(t)
    ensures SharedInv(t)
  {
    if e.Spawn? || e.EnterOnce? { assert CallerInv(s, e.id, s.callers[e.id]); }
  }

  /** The caller an event moves. */
  lemma {:induction false} MoveKeepsCaller(s: State, e: Event, t: State)
    requires Step(s, e) == Some(t) && Internal(e) && !WorkerEvent(e)
    requires CallerInv(s, e.id, s.callers[e.id])
    ensures CallerInv(t, e.id, t.callers[e.id])
  {
  }

  /** What a step may do to what callers share: the connection stays, causes stay, the once goes forward
      and is left by its winner only, and the stored error is final once closeDone is closed. */
  ghost predicate SharedMoves(s: State, e: Event, t: State) {
    t.connected == s.connected &&
    (forall ctx :: ctx in s.causes ==> ctx in t.causes && t.causes[ctx] == s.causes[ctx]) &&
    (s.once.Complete? ==> t.once.Complete?) &&
    (s.once.Running? && t.once != s.once ==> e == Spawn(s.once.winner)) &&
    (s.done ==> t.done && t.closeErr == s.closeErr)
  }

  lemma {:induction false} SpawnedByTheWinner(s: State, id: CallId)
    requires Inv(s) && Step(s, Spawn(id)).Some?
    ensures s.once == Running(id)
  {
    assert CallerInv(s, id, s.callers[id]);
  }

  lemma {:induction false} StepMovesShared(s: State, e: Event, t: State)
    requires Inv(s) && Step(s, e) == Some(t)
    ensures SharedMoves(s, e, t)
  {
    if e.Spawn? { SpawnedByTheWinner(s, e.id); }
  }

  /** The callers an event leaves where they were. */
  lemma {:induction false} SharedMovesKeepCaller(s: State, e: Event, t: State, id: CallId, c: Caller)
    requires SharedMoves(s, e, t) && CallerInv(s, id, c) && e != Spawn(id)
    ensures CallerInv(t, id, c)
  {
  }

  lemma {:induction false} StepMovesCaller(s: State, e: Event, t: State, id: CallId)
    requires Step(s, e) == Some(t) && id in t.callers
    ensures id in s.callers && t.callers[id] != s.callers[id] ==> Internal(e) && !WorkerEvent(e) && e.id == id
    ensures id in s.callers && e == Spawn(id) ==> t.callers[id] != s.callers[id]
    ensures id !in s.callers ==> e.Arrive? && t.callers[id] == Caller(e.call, if e.call.ForceCall? then ForcingOnly else Validating)
  {
  }

  lemma {:induction false} StepKeepsInv(s: State, e: Event, t: State)
    requires Inv(s) && Step(s, e) == Some(t)
    ensures Inv(t)
  {
    StepKeepsShared(s, e, t);
    StepMovesShared(s, e, t);
    forall id | id in t.callers
      ensures CallerInv(t, id, t.callers[id])
    {
      StepMovesCaller(s, e, t, id);
      if id in s.callers && t.callers[id] == s.callers[id] {
        SharedMovesKeepCaller(s, e, t, id, s.callers[id]);
      } else if id in s.callers {
        MoveKeepsCaller(s, e, t);
      }
    }
  }

  lemma {:induction false} CallersStay(s: State, e: Event, t: State, id: CallId)
    requires Step(s, e) == Some(t) && id in s.callers
    ensures id in t.callers && t.callers[id].call == s.callers[id].call
    ensures s.callers[id].phase.Returned? ==> t.callers[id] == s.callers[id]
  {
  }

  /** Calls never change, callers never vanish, causes are fixed once set, and what has returned stays. */
  lemma {:induction false} StepIsMonotone(s: State, e: Event, t: State)
    requires Step(s, e) == Some(t)
    ensures t.connected == s.connected
    ensures forall id :: id in s.callers ==> id in t.callers && t.callers[id].call == s.callers[id].call
    ensures forall id :: id in s.callers && s.callers[id].phase.Returned? ==> t.callers[id] == s.callers[id]
    ensures forall ctx :: ctx in s.causes ==> ctx in t.causes && t.causes[ctx] == s.causes[ctx]
    ensures t.closeErr != s.closeErr ==> e.StoreResult?
    ensures s.done ==> t.done
  {
    forall id | id in s.callers
      ensures id in t.callers && t.callers[id].call == s.callers[id].call
      ensures s.callers[id].phase.Returned? ==> t.callers[id] == s.callers[id]
    {
      CallersStay(s, e, t, id);
    }
  }

  /** Once closeDone is closed, the stored error no longer changes. */
  lemma {:induction false} StoredErrorLasts(s: State, e: Event, t: State)
    requires Inv(s) && Step(s, e) == Some(t) && s.done
    ensures t.done && t.closeErr == s.closeErr
  {
  }

  // ----- the order of the shared steps over whole runs -----

  /** The steps that touch shared state, numbered in the only order they may occur; -1 for the others. */
  function Milestone(e: Event): int {
    match e
    case EnterOnce(_) => 0
    case Spawn(_) => 1
    case StartHandshake(_, _) => 2
    case HandshakeReturns(_) => 3
    case StoreResult => 4
    case SignalDone => 5
    case _ => -1
  }

  /** How many milestones lie behind a state. */
  function Level(s: State): nat {
    match s.worker
    case Absent => if s.once.Running? then 1 else 0
    case Spawned(_, _) => 2
    case Handshaking => 3
    case Handling(_) => 4
    case Stored(_) => 5
    case Finished(_) => 6
  }

  lemma {:induction false} StepMovesLevel(s: State, e: Event, t: State)
    requires Inv(s) && Step(s, e) == Some(t)
    ensures Milestone(e) == -1 ==> Level(t) == Level(s)
    ensures Milestone(e) != -1 ==> Milestone(e) == Level(s) && Level(t) == Level(s) + 1
  {
  }

  /** The call that won the once, as the run recorded it. */
  ghost predicate WonBy(es: seq<Event>, s: State, id: CallId, status: int, reason: string) {
    EnterOnce(id) in es && id in s.callers && s.callers[id].call.CloseCall? && Accepted(s, s.callers[id].call) &&
    s.callers[id].call.status == status && s.callers[id].call.reason == reason
  }

  /** Milestones lie behind the state's level, in order. */
  ghost predicate Ordered(es: seq<Event>, level: nat) {
    (forall i :: 0 <= i < |es| ==> Milestone(es[i]) < level) &&
    (forall i, j :: 0 <= i < j < |es| && Milestone(es[i]) != -1 && Milestone(es[j]) != -1 ==>
                      Milestone(es[i]) < Milestone(es[j]))
  }

  /** What the past of a run says about the worker. */
  ghost predicate WorkerHistory(es: seq<Event>, s: State) {
    (s.once.Running? ==> EnterOnce(s.once.winner) in es) &&
    (Level(s) >= 4 ==> HandshakeReturns(s.worker.saw) in es) &&
    (Level(s) >= 5 ==> StoreResult in es) &&
    (Level(s) >= 6 ==> SignalDone in es)
  }

  /** Whatever is or was sent is the winner's. */
  ghost predicate Sent(es: seq<Event>, s: State) {
    (s.worker.Spawned? ==> exists id :: WonBy(es, s, id, s.worker.status, s.worker.reason)) &&
    (forall status, reason :: StartHandshake(status, reason) in es ==> exists id :: WonBy(es, s, id, status, reason))
  }

  /** What a result says about a forced close: closeNow returns its error wrapped, or nil; a canceled Close
      adds it, wrapped, to the cause. */
  ghost predicate ForceReported(exit: Exit, forced: Option<Err>, result: Option<Err>) {
    if exit == Forced then
      result == if forced.Some? then Some(Wrap("force close WebSocket", forced.value)) else None
    else
      var operation := if exit == AlreadyCanceled then "force close WebSocket" else "close WebSocket: force close";
      result.Some? && result.value.Join? && result.value.errs != [] &&
      result.value.errs[1..] == if forced.Some? then [Wrap(operation, forced.value)] else []
  }

  /** The run shows a forced close by `id`, and the result says how it went. */
  ghost predicate ForcedBy(es: seq<Event>, id: CallId, exit: Exit, result: Option<Err>) {
    exists forced :: ForceReturns(id, forced) in es && ForceReported(exit, forced, result)
  }

  /** Whoever is past a forced close made one, and reports how it went. */
  ghost predicate ForceTold(es: seq<Event>, id: CallId, phase: Phase) {
    match phase
    case AwaitingWorker(forced) => ForceReturns(id, forced) in es
    case Returned(exit, r) =>
      (exit == AlreadyCanceled || exit == Interrupted || exit == Forced) ==> ForcedBy(es, id, exit, r)
    case _ => true
  }

  ghost predicate Forces(es: seq<Event>, s: State) {
    forall id :: id in s.callers ==> ForceTold(es, id, s.callers[id].phase)
  }

  ghost predicate History(es: seq<Event>, s: State) {
    Ordered(es, Level(s)) && WorkerHistory(es, s) && Sent(es, s) && Forces(es, s)
  }

  lemma {:induction false} ForceToldLasts(es: seq<Event>, e: Event, id: CallId, phase: Phase)
    requires ForceTold(es, id, phase)
    ensures ForceTold(es + [e], id, phase)
  {
    if phase.Returned? && ForcedBy(es, id, phase.exit, phase.result) {
      var forced :| ForceReturns(id, forced) in es && ForceReported(phase.exit, forced, phase.result);
      assert ForceReturns(id, forced) in es + [e];
    }
  }

  lemma {:induction false} MoveTellsForce(es: seq<Event>, s: State, e: Event)
    requires Forces(es, s) && Step(s, e).Some? && Internal(e) && !WorkerEvent(e)
    ensures ForceTold(es + [e], e.id, Step(s, e).value.callers[e.id].phase)
  {
    var c, longer := s.callers[e.id], es + [e];
    assert ForceTold(es, e.id, c.phase);
    var next := Step(s, e).value.callers[e.id].phase;
    if e.ForceReturns? {
      assert ForceReturns(e.id, e.err) in longer;
      if next.Returned? { assert ForceReported(next.exit, e.err, next.result); }
    } else if e.AwaitDone? {
      assert ForceReturns(e.id, c.phase.forced) in longer;
      assert ForceReported(next.exit, c.phase.forced, next.result);
    }
  }

  lemma {:induction false} StepKeepsForces(es: seq<Event>, s: State, e: Event, t: State)
    requires Forces(es, s) && Step(s, e) == Some(t)
    ensures Forces(es + [e], t)
  {
    forall id | id in t.callers
      ensures ForceTold(es + [e], id, t.callers[id].phase)
    {
      if Internal(e) && !WorkerEvent(e) && e.id == id {
        MoveTellsForce(es, s, e);
      } else if id in s.callers {
        ForceToldLasts(es, e, id, s.callers[id].phase);
      }
    }
  }

  lemma {:induction false} WonByLasts(es: seq<Event>, s: State, e: Event, t: State, id: CallId, status: int, reason: string)
    requires WonBy(es, s, id, status, reason) && Step(s, e) == Some(t)
    ensures WonBy(es + [e], t, id, status, reason)
  {
    StepIsMonotone(s, e, t);
  }

  lemma {:induction false} StepKeepsSent(es: seq<Event>, s: State, e: Event, t: State)
    requires Inv(s) && History(es, s) && Step(s, e) == Some(t)
    ensures Sent(es + [e], t)
  {
    var longer := es + [e];
    if e.Spawn? {
      assert CallerInv(s, e.id, s.callers[e.id]);
      assert WonBy(longer, t, e.id, t.worker.status, t.worker.reason);
    } else if t.worker.Spawned? {
      var id :| WonBy(es, s, id, s.worker.status, s.worker.reason);
      WonByLasts(es, s, e, t, id, s.worker.status, s.worker.reason);
    }
    forall status, reason | StartHandshake(status, reason) in longer
      ensures exists id :: WonBy(longer, t, id, status, reason)
    {
      var id :| WonBy(es, s, id, status, reason);
      WonByLasts(es, s, e, t, id, status, reason);
    }
  }

  lemma {:induction false} StepKeepsWorkerHistory(es: seq<Event>, s: State, e: Event, t: State)
    requires Inv(s) && WorkerHistory(es, s) && Step(s, e) == Some(t)
    ensures WorkerHistory(es + [e], t)
  {
    assert forall x :: x in es ==> x in es + [e];
    assert e in es + [e];
  }

  lemma {:induction false} StepKeepsHistory(es: seq<Event>, s: State, e: Event, t: State)
    requires Inv(s) && History(es, s) && Step(s, e) == Some(t)
    ensures History(es + [e], t)
  {
    StepMovesLevel(s, e, t);
    StepKeepsWorkerHistory(es, s, e, t);
    StepKeepsSent(es, s, e, t);
    StepKeepsForces(es, s, e, t);
  }

  /** Every state of every run satisfies the invariant and agrees with its history. */
  lemma {:induction false} RunsKeepInv(init: State, es: seq<Event>, s: State)
    requires Initial(init) && Exec(init, es) == Some(s)
    ensures Inv(s) && History(es, s)
  {
    if es != [] {
      var before := es[..|es| - 1];
      var t := Exec(init, before).value;
      RunsKeepInv(init, before, t);
      StepKeepsInv(t, es[|es| - 1], s);
      StepKeepsHistory(before, t, es[|es| - 1], s);
      assert before + [es[|es| - 1]] == es;
    }
  }

  lemma {:induction false} PrefixRuns(init: State, es: seq<Event>, n: nat)
    requires Exec(init, es).Some? && n <= |es|
    ensures Exec(init, es[..n]).Some?
    ensures n < |es| ==> Step(Exec(init, es[..n]).value, es[n]) == Exec(init, es[..n + 1]) &&
                         Exec(init, es[..n + 1]).Some?
  {
    if n == |es| {
      assert es[..n] == es;
    } else if n == |es| - 1 {
      assert es[..n + 1] == es;
    } else {
      PrefixRuns(init, es[..|es| - 1], n);
      assert es[..|es| - 1][..n] == es[..n];
      assert es[..|es| - 1][..n + 1] == es[..n + 1];
    }
  }

  // ----- main results -----

  /** In every run each shared step happens at most once, and in order: one caller wins the once, one
      worker is spawned, one handshake starts and returns, closeErr is written at most once and only
      before the one close of closeDone. */
  lemma {:induction false} SharedStepsHappenOnceInOrder(init: State, es: seq<Event>, i: nat, j: nat)
    requires Initial(init) && Exec(init, es).Some?
    requires i < |es| && j < |es| && Milestone(es[i]) != -1 && Milestone(es[j]) != -1
    ensures Milestone(es[i]) < Milestone(es[j]) <==> i < j
    ensures Milestone(es[i]) == Milestone(es[j]) <==> i == j
  {
    RunsKeepInv(init, es, Exec(init, es).value);
  }

  lemma {:induction false} ReturnNeedsFinishedWorker(s: State, e: Event)
    requires Inv(s) && Step(s, e).Some? && (e.TakeDone? || e.AwaitDone?)
    ensures Level(s) == 6
  {
  }

  lemma {:induction false} OnlyOneStore(init: State, es: seq<Event>, k: nat)
    requires Initial(init) && Exec(init, es).Some? && k <= |es| && StoreResult in es[..k]
    ensures StoreResult !in es[k..]
  {
    var n :| 0 <= n < k && es[n] == StoreResult;
    forall m | k <= m < |es|
      ensures es[m] != StoreResult
    {
      if es[m] == StoreResult { SharedStepsHappenOnceInOrder(init, es, n, m); }
    }
  }

  /** closeErr is read, and a waiting caller returns, only after closeDone was closed, hence after the
      library's handshake returned and its result was stored; nothing writes closeErr from then on. */
  lemma {:induction false} ReturnsFollowTheHandshake(init: State, es: seq<Event>, k: nat)
    requires Initial(init) && Exec(init, es).Some?
    requires k < |es| && (es[k].TakeDone? || es[k].AwaitDone?)
    ensures SignalDone in es[..k] && StoreResult in es[..k]
    ensures exists saw :: HandshakeReturns(saw) in es[..k]
    ensures StoreResult !in es[k..]
  {
    PrefixRuns(init, es, k);
    var s := Exec(init, es[..k]).value;
    RunsKeepInv(init, es[..k], s);
    ReturnNeedsFinishedWorker(s, es[k]);
    assert HandshakeReturns(s.worker.saw) in es[..k];
    OnlyOneStore(init, es, k);
  }

  lemma {:induction false} ReturnedCloseFacts(s: State, id: CallId)
    requires Inv(s) && id in s.callers && s.callers[id].call.CloseCall? && s.callers[id].phase.Returned?
    ensures var call, exit, result := s.callers[id].call, s.callers[id].phase.exit, s.callers[id].phase.result;
      (exit == Rejected <==> ArgumentError(s.connected, call).Some?) &&
      (exit == Rejected ==> result == ArgumentError(s.connected, call)) &&
      (exit == Completed || exit == Interrupted ==> s.done && s.worker.Finished?) &&
      (exit == Completed ==> result == s.closeErr == StoredError(s.worker.saw)) &&
      (result.None? ==> exit == Completed) &&
      (exit == AlreadyCanceled || exit == Interrupted ==>
         CauseOf(s, call).Some? && ReportsCause(result, CauseOf(s, call).value)) &&
      exit != Forced
  {
    assert CallerInv(s, id, s.callers[id]);
  }

  /** The arguments that Close turns down, and what it says. */
  ghost function Refusal(connected: bool, call: Call): Option<string>
    requires call.CloseCall?
  {
    if call.ctx.None? then Some("close WebSocket: context is nil")
    else if !connected then Some("close WebSocket: connection is invalid")
    else if call.status !in {1000, 1001, 1008, 1011} then Some("close WebSocket: unsupported status code")
    else if |call.reason| > 123 || (exists i :: 0 <= i < |call.reason| && call.reason[i] in {'\0', '\r', '\n'}) then
      Some("close WebSocket: reason must contain at most 123 safe bytes")
    else None
  }

  lemma {:induction false} RefusalsAreErrors(connected: bool, call: Call)
    requires call.CloseCall?
    ensures ArgumentError(connected, call) ==
              if Refusal(connected, call).Some? then Some(Opaque(Refusal(connected, call).value)) else None
  {
    if i :| 0 <= i < |call.reason| && call.reason[i] in {'\0', '\r', '\n'} { assert call.reason[i] in call.reason; }
  }

  /** What a completed Close returns for what the library's handshake returned: nil for nil and wherever a
      closed socket is in the tree; else the status of the first close error met in it, without its reason;
      else the error wrapped. The library says -1 for "no close error". */
  ghost predicate HandshakeGives(saw: Option<Err>, result: Option<Err>) {
    (result.None? <==> saw.None? || NetClosed in Parts(saw.value)) &&
    (result.Some? && saw.Some? ==>
       var code := FirstNativeMark(Marks(saw.value));
       result.value == if code.Some? && code.value != -1 then Peer(code.value)
                       else Wrap("close WebSocket handshake", saw.value))
  }

  lemma {:induction false} StoredErrorIsGiven(saw: Option<Err>)
    ensures HandshakeGives(saw, StoredError(saw))
  {
    if saw.Some? {
      ContainsReadsParts(saw.value, NetClosed);
      SearchesReadMarks(saw.value);
    }
  }

  /** The call's context has been canceled. */
  ghost predicate Canceled(s: State, call: Call) {
    call.CloseCall? && call.ctx.Some? && call.ctx.value in s.causes
  }

  /** What a canceled Close returns: its own cause, and the error of the one forced close it made. */
  ghost predicate CancelGives(es: seq<Event>, id: CallId, exit: Exit, cause: Err, result: Option<Err>) {
    result.Some? && cause in Parts(result.value) &&
    exists forced ::
      ForceReturns(id, forced) in es && (forced.Some? ==> forced.value in Parts(result.value)) &&
      result.value == Join([Wrap("close WebSocket", cause)] +
                           (if forced.None? then []
                            else if exit == AlreadyCanceled then [Wrap("force close WebSocket", forced.value)]
                            else [Wrap("close WebSocket: force close", forced.value)]))
  }

  lemma {:induction false} PartsOfReport(first: Err, rest: seq<Err>)
    ensures first in Parts(Join([Wrap("close WebSocket", first)] + rest))
    ensures forall i :: 0 <= i < |rest| && rest[i].Wrap? ==> rest[i].inner in Parts(Join([Wrap("close WebSocket", first)] + rest))
  {
    var report := Join([Wrap("close WebSocket", first)] + rest);
    assert Contains(report.errs[0], first);
    ContainsReadsParts(report, first);
    forall i | 0 <= i < |rest| && rest[i].Wrap?
      ensures rest[i].inner in Parts(report)
    {
      assert Contains(report.errs[i + 1], rest[i].inner);
      ContainsReadsParts(report, rest[i].inner);
    }
  }

  lemma {:induction false} CanceledCloseGives(es: seq<Event>, id: CallId, exit: Exit, cause: Err, result: Option<Err>)
    requires ReportsCause(result, cause) && ForcedBy(es, id, exit, result) && (exit == AlreadyCanceled || exit == Interrupted)
    ensures CancelGives(es, id, exit, cause, result)
  {
    var forced :| ForceReturns(id, forced) in es && ForceReported(exit, forced, result);
    var errs := result.value.errs;
    assert errs == [errs[0]] + errs[1..];
    PartsOfReport(cause, errs[1..]);
    if forced.Some? { assert errs[1..][0].inner == forced.value; }
  }

  /** What a Close call returns, for every way out, in every reachable state: rejected exactly for the
      arguments that are turned down; past the already-canceled check only once the handshake has finished,
      with what it gives; nil only then; and a canceled call has forced the socket shut and returns its own
      cause together with the error of the forced close, if there was one. */
  lemma {:induction false} CloseResults(init: State, es: seq<Event>, s: State, id: CallId)
    requires Initial(init) && Exec(init, es) == Some(s)
    requires id in s.callers && s.callers[id].call.CloseCall? && s.callers[id].phase.Returned?
    ensures var call, exit, result := s.callers[id].call, s.callers[id].phase.exit, s.callers[id].phase.result;
      (exit == Rejected <==> Refusal(s.connected, call).Some?) &&
      (exit == Rejected ==> result == Some(Opaque(Refusal(s.connected, call).value))) &&
      (exit == Completed || exit == Interrupted ==> s.worker.Finished? && HandshakeReturns(s.worker.saw) in es) &&
      (exit == Completed ==> HandshakeGives(s.worker.saw, result)) &&
      (result.None? ==> exit == Completed) &&
      (exit == AlreadyCanceled || exit == Interrupted ==>
         Canceled(s, call) && CancelGives(es, id, exit, s.causes[call.ctx.value], result)) &&
      exit != Forced
  {
    RunsKeepInv(init, es, s);
    var c := s.callers[id];
    ReturnedCloseFacts(s, id);
    RefusalsAreErrors(s.connected, c.call);
    assert ForceTold(es, id, c.phase);
    if c.phase.exit == Completed { StoredErrorIsGiven(s.worker.saw); }
    if c.phase.exit == AlreadyCanceled || c.phase.exit == Interrupted {
      CanceledCloseGives(es, id, c.phase.exit, CauseOf(s, c.call).value, c.phase.result);
    }
  }

  // ----- each call forces the socket at most once -----

  predicate PastForce(phase: Phase) {
    phase.AwaitingWorker? || phase.Returned?
  }

  lemma {:induction false} ForcedStaysForced(init: State, es: seq<Event>, s: State, k: nat)
    requires Exec(init, es) == Some(s) && k < |es| && es[k].ForceReturns?
    ensures es[k].id in s.callers && PastForce(s.callers[es[k].id].phase)
  {
    var before, e := es[..|es| - 1], es[|es| - 1];
    var t := Exec(init, before).value;
    if k < |before| {
      ForcedStaysForced(init, before, t, k);
      assert before[k] == es[k];
      PastForceLasts(t, e, s, es[k].id);
    } else {
      PastForceLasts(t, e, s, e.id);
    }
  }

  lemma {:induction false} PastForceLasts(s: State, e: Event, t: State, id: CallId)
    requires Step(s, e) == Some(t) && id in s.callers
    ensures PastForce(s.callers[id].phase) ==> PastForce(t.callers[id].phase) && !(e.ForceReturns? && e.id == id)
    ensures e.ForceReturns? && e.id == id ==> PastForce(t.callers[id].phase)
  {
  }

  /** One call, one forced close at most. */
  lemma {:induction false} OneForce(init: State, es: seq<Event>, i: nat, j: nat)
    requires Exec(init, es).Some? && i <= j < |es| && es[i].ForceReturns? && es[j].ForceReturns? && es[i].id == es[j].id
    ensures i == j
  {
    if i < j {
      PrefixRuns(init, es, j);
      var s := Exec(init, es[..j]).value;
      assert es[..j][i] == es[i];
      ForcedStaysForced(init, es[..j], s, i);
      PastForceLasts(s, es[j], Step(s, es[j]).value, es[i].id);
    }
  }

  /** closeNow returns nil exactly if the one forced close it made did, and else its error, wrapped. */
  lemma {:induction false} ForcedResults(init: State, es: seq<Event>, s: State, id: CallId, forced: Option<Err>)
    requires Initial(init) && Exec(init, es) == Some(s)
    requires id in s.callers && s.callers[id].call.ForceCall? && s.callers[id].phase.Returned?
    ensures ForceReturns(id, forced) in es <==>
              s.callers[id].phase.result == (if forced.Some? then Some(Wrap("force close WebSocket", forced.value)) else None)
  {
    RunsKeepInv(init, es, s);
    var c := s.callers[id];
    assert CallerInv(s, id, c) && ForceTold(es, id, c.phase);
    var told :| ForceReturns(id, told) in es && ForceReported(c.phase.exit, told, c.phase.result);
    if ForceReturns(id, forced) in es {
      var i :| 0 <= i < |es| && es[i] == ForceReturns(id, told);
      var j :| 0 <= j < |es| && es[j] == ForceReturns(id, forced);
      OneForce(init, es, if i < j then i else j, if i < j then j else i);
    }
  }

  /** Nothing is ruled out that could happen: both branches of the select are open exactly when they are
      ready, and library calls may return anything. */
  lemma {:induction false} NothingIsRuledOut(s: State, id: CallId, err: Option<Err>)
    requires Inv(s)
    ensures s.worker.Handshaking? ==> Step(s, HandshakeReturns(err)).Some?
    ensures id in s.callers ==>
      var phase := s.callers[id].phase;
      (phase.ForcingFirst? || phase.Forcing? || (phase.ForcingOnly? && s.connected) ==> Step(s, ForceReturns(id, err)).Some?) &&
      (phase.Selecting? ==> (Step(s, TakeDone(id)).Some? <==> s.worker.Finished?) &&
                            (Step(s, TakeCancel(id)).Some? <==> Canceled(s, s.callers[id].call))) &&
      (phase.AwaitingWorker? ==> (Step(s, AwaitDone(id)).Some? <==> s.worker.Finished?))
  {
    if id in s.callers { assert CallerInv(s, id, s.callers[id]); }
  }

  /** Phases of a call that found its context canceled at the check. */
  predicate TurnedAway(phase: Phase) {
    phase.ForcingFirst? || (phase.Returned? && phase.exit == AlreadyCanceled)
  }

  /** Phases of a call that found its context live at the check. */
  predicate Joined(phase: Phase) {
    phase.EnteringOnce? || phase.Spawning? || phase.Selecting? || phase.Forcing? || phase.AwaitingWorker? ||
    (phase.Returned? && (phase.exit == Completed || phase.exit == Interrupted))
  }

  lemma {:induction false} StepsKeepTheWay(s: State, e: Event, t: State, id: CallId)
    requires Step(s, e) == Some(t) && id in s.callers
    ensures TurnedAway(s.callers[id].phase) ==> TurnedAway(t.callers[id].phase)
    ensures Joined(s.callers[id].phase) ==> Joined(t.callers[id].phase)
    ensures e == EnterOnce(id) || e == SkipOnce(id) ==> Joined(t.callers[id].phase)
  {
  }

  lemma {:induction false} OnceNeedsJoining(init: State, es: seq<Event>, s: State, id: CallId)
    requires Initial(init) && Exec(init, es) == Some(s) && (EnterOnce(id) in es || SkipOnce(id) in es)
    ensures id in s.callers && Joined(s.callers[id].phase)
  {
    var before, e := es[..|es| - 1], es[|es| - 1];
    var t := Exec(init, before).value;
    assert es == before + [e];
    if EnterOnce(id) in before || SkipOnce(id) in before { OnceNeedsJoining(init, before, t, id); }
    StepsKeepTheWay(t, e, s, id);
  }

  lemma {:induction false} CheckDecidesTheWay(init: State, es: seq<Event>, s: State, k: nat, id: CallId)
    requires Exec(init, es) == Some(s) && k < |es| && es[k] == CheckContext(id)
    ensures Exec(init, es[..k]).Some? && id in s.callers
    ensures if Canceled(Exec(init, es[..k]).value, s.callers[id].call)
            then TurnedAway(s.callers[id].phase) else Joined(s.callers[id].phase)
  {
    var before, e := es[..|es| - 1], es[|es| - 1];
    var t := Exec(init, before).value;
    if k < |before| {
      CheckDecidesTheWay(init, before, t, k, id);
      assert before[..k] == es[..k];
      StepIsMonotone(t, e, s);
      StepsKeepTheWay(t, e, s, id);
    }
  }

  /** The already-canceled check decides for good. A call whose context was canceled at that moment never
      comes near the once, so it neither starts the handshake nor waits for it, and it can return in no
      other way than with its cause; a call whose context was live then returns only by waiting, however
      soon it is canceled afterwards. */
  lemma {:induction false} CanceledCallsStayOut(init: State, es: seq<Event>, s: State, k: nat, id: CallId)
    requires Initial(init) && Exec(init, es) == Some(s) && k < |es| && es[k] == CheckContext(id)
    ensures Exec(init, es[..k]).Some? && id in s.callers
    ensures var call, phase := s.callers[id].call, s.callers[id].phase;
      if Canceled(Exec(init, es[..k]).value, call)
      then EnterOnce(id) !in es && SkipOnce(id) !in es && (phase.Returned? ==> phase.exit == AlreadyCanceled)
      else phase.Returned? ==> phase.exit == Completed || phase.exit == Interrupted
  {
    CheckDecidesTheWay(init, es, s, k, id);
    if EnterOnce(id) in es || SkipOnce(id) in es { OnceNeedsJoining(init, es, s, id); }
  }

  /** All calls that leave through closeDone return the same error, at whatever times they return. */
  lemma {:induction false} CompletedCallsAgree(init: State, es: seq<Event>, s: State, a: CallId, b: CallId)
    requires Initial(init) && Exec(init, es) == Some(s)
    requires a in s.callers && s.callers[a].phase.Returned? && s.callers[a].phase.exit == Completed
    requires b in s.callers && s.callers[b].phase.Returned? && s.callers[b].phase.exit == Completed
    ensures s.callers[a].phase.result == s.callers[b].phase.result == s.closeErr
  {
    RunsKeepInv(init, es, s);
    assert CallerInv(s, a, s.callers[a]) && CallerInv(s, b, s.callers[b]);
  }

  /** With library errors, what a completed Close returns carries no close reason of the peer. */
  lemma {:induction false} CompletedResultsAreRedacted(init: State, es: seq<Event>, s: State, id: CallId)
    requires Initial(init) && Exec(init, es) == Some(s)
    requires forall err :: HandshakeReturns(Some(err)) in es ==> FromLibrary(err)
    requires id in s.callers && s.callers[id].phase.Returned? && s.callers[id].phase.exit == Completed
    ensures s.callers[id].phase.result.Some? ==> NoNative(s.callers[id].phase.result.value)
  {
    RunsKeepInv(init, es, s);
    assert CallerInv(s, id, s.callers[id]);
    if s.closeErr.Some? {
      var err := s.worker.saw.value;
      assert HandshakeReturns(Some(err)) in es;
      SanitizeRemovesNatives("close WebSocket handshake", None, err);
    }
  }

  /** The body of the close frame: status in network order, then the reason. */
  function ClosePayload(status: int, reason: string): string
    requires 0 <= status < 0x8000
  {
    [(status / 256) as char, (status % 256) as char] + reason
  }

  /** The status and reason a peer reads from a close frame body. */
  function ParsePayload(body: string): Option<(int, string)> {
    if |body| < 2 || !WireCode(body[0] as int * 256 + body[1] as int) then None
    else Some((body[0] as int * 256 + body[1] as int, body[2..]))
  }

  lemma {:induction false} PayloadReadsBack(status: int, reason: string)
    requires ValidStatus(status) && SafeReason(reason)
    ensures |ClosePayload(status, reason)| <= 125
    ensures ParsePayload(ClosePayload(status, reason)) == Some((status, reason))
  {
    assert ClosePayload(status, reason)[2..] == reason;
  }

  lemma {:induction false} OneWinner(init: State, es: seq<Event>, a: CallId, b: CallId)
    requires Initial(init) && Exec(init, es).Some? && EnterOnce(a) in es && EnterOnce(b) in es
    ensures a == b
  {
    var i :| 0 <= i < |es| && es[i] == EnterOnce(a);
    var j :| 0 <= j < |es| && es[j] == EnterOnce(b);
    SharedStepsHappenOnceInOrder(init, es, i, j);
  }

  /** The one status and reason that reach the wire are those of the caller that won the once; the frame
      body fits the 125 bytes of section 5.5 of RFC 6455 and reads back as sent. */
  lemma {:induction false} HandshakeCarriesTheWinner(init: State, es: seq<Event>, s: State, k: nat)
    requires Initial(init) && Exec(init, es) == Some(s)
    requires k < |es| && es[k].StartHandshake?
    ensures exists id :: WonBy(es, s, id, es[k].status, es[k].reason) &&
                         (forall other :: EnterOnce(other) in es ==> other == id)
    ensures es[k].status in {1000, 1001, 1008, 1011} && |es[k].reason| <= 123
    ensures forall i :: 0 <= i < |es[k].reason| ==> es[k].reason[i] !in {'\0', '\r', '\n'}
    ensures |ClosePayload(es[k].status, es[k].reason)| <= 125
    ensures ParsePayload(ClosePayload(es[k].status, es[k].reason)) == Some((es[k].status, es[k].reason))
  {
    RunsKeepInv(init, es, s);
    assert es[k] == StartHandshake(es[k].status, es[k].reason);
    var id :| WonBy(es, s, id, es[k].status, es[k].reason);
    forall other | EnterOnce(other) in es
      ensures other == id
    {
      OneWinner(init, es, other, id);
    }
    PayloadReadsBack(es[k].status, es[k].reason);
    RefusalsAreErrors(s.connected, s.callers[id].call);
  }

  // ----- progress -----

  /** Steps a caller may still take. */
  function Rank(phase: Phase): nat {
    match phase
    case Validating => 7
    case CheckingContext => 6
    case EnteringOnce => 5
    case Spawning => 4
    case Selecting => 3
    case Forcing => 2
    case AwaitingWorker(_) => 1
    case ForcingFirst(_) => 1
    case ForcingOnly => 1
    case Returned(_, _) => 0
  }

  ghost function Ranks(s: State): map<CallId, nat> {
    map id | id in s.callers :: Rank(s.callers[id].phase)
  }

  /** An upper bound on the internal steps still possible. */
  ghost function Measure(s: State): nat {
    Sum(Ranks(s)) + (6 - Level(s))
  }

  lemma {:induction false} MovesLowerRank(s: State, c: Caller, e: Event)
    requires NextPhase(s, c, e).Some?
    ensures Rank(NextPhase(s, c, e).value) < Rank(c.phase)
  {
  }

  lemma {:induction false} RanksUpdate(s: State, t: State, id: CallId)
    requires id in t.callers && t.callers == s.callers[id := t.callers[id]]
    ensures Sum(Ranks(t)) == Sum(Ranks(s)) - (if id in s.callers then Rank(s.callers[id].phase) else 0)
                             + Rank(t.callers[id].phase)
  {
    assert Ranks(t) == Ranks(s)[id := Rank(t.callers[id].phase)];
    SumUpdate(Ranks(s), id, Rank(t.callers[id].phase));
  }

  lemma {:induction false} StepMovesMeasure(s: State, e: Event, t: State)
    requires Inv(s) && Step(s, e) == Some(t)
    ensures Internal(e) ==> Measure(t) < Measure(s)
    ensures e.CancelContext? ==> Measure(t) == Measure(s)
    ensures e.Arrive? ==> Measure(t) <= Measure(s) + 7
  {
    StepMovesLevel(s, e, t);
    if e.CancelContext? || WorkerEvent(e) {
      assert Ranks(t) == Ranks(s);
    } else {
      if Internal(e) { MovesLowerRank(s, s.callers[e.id], e); }
      RanksUpdate(s, t, e.id);
    }
  }

  ghost function CountInternal(es: seq<Event>): nat {
    if es == [] then 0 else CountInternal(es[..|es| - 1]) + (if Internal(es[|es| - 1]) then 1 else 0)
  }

  ghost function CountArrivals(es: seq<Event>): nat {
    if es == [] then 0 else CountArrivals(es[..|es| - 1]) + (if es[|es| - 1].Arrive? then 1 else 0)
  }

  lemma {:induction false} ContinuationsKeepInv(s: State, es: seq<Event>, t: State)
    requires Inv(s) && Exec(s, es) == Some(t)
    ensures Inv(t)
    ensures CountInternal(es) + Measure(t) <= Measure(s) + 7 * CountArrivals(es)
  {
    if es != [] {
      var mid := Exec(s, es[..|es| - 1]).value;
      ContinuationsKeepInv(s, es[..|es| - 1], mid);
      StepKeepsInv(mid, es[|es| - 1], t);
      StepMovesMeasure(mid, es[|es| - 1], t);
    }
  }

  predicate AllReturned(s: State) {
    forall id :: id in s.callers ==> s.callers[id].phase.Returned?
  }

  /** The step that is due when `id` has not returned. Library calls are taken to return, with any result. */
  ghost function NextStep(s: State, id: CallId): Event
    requires id in s.callers
  {
    match s.callers[id].phase
    case Validating => Validate(id)
    case CheckingContext => CheckContext(id)
    case EnteringOnce =>
      if s.once.Unused? then EnterOnce(id) else if s.once.Running? then Spawn(s.once.winner) else SkipOnce(id)
    case Spawning => Spawn(id)
    case Selecting => if s.done then TakeDone(id) else WorkerStep(s)
    case AwaitingWorker(_) => if s.done then AwaitDone(id) else WorkerStep(s)
    case _ => ForceReturns(id, None)
  }

  ghost function WorkerStep(s: State): Event {
    match s.worker
    case Spawned(status, reason) => StartHandshake(status, reason)
    case Handshaking => HandshakeReturns(None)
    case Handling(_) => StoreResult
    case _ => SignalDone
  }

  lemma {:induction false} WorkerCanMove(s: State)
    requires SharedInv(s) && s.once.Complete? && !s.done
    ensures WorkerEvent(WorkerStep(s)) && Step(s, WorkerStep(s)).Some?
  {
  }

  lemma {:induction false} CallerCanMove(s: State, id: CallId)
    requires SharedInv(s) && id in s.callers && !s.callers[id].phase.Returned?
    requires CallerInv(s, id, s.callers[id])
    requires s.once.Running? ==> CallerInv(s, s.once.winner, s.callers[s.once.winner])
    ensures Internal(NextStep(s, id)) && Step(s, NextStep(s, id)).Some?
  {
    if s.once.Complete? && !s.done { WorkerCanMove(s); }
  }

  /** No deadlock: while a caller has not returned, some step of the code can be taken. */
  lemma {:induction false} NoDeadlock(s: State, id: CallId)
    requires Inv(s) && id in s.callers && !s.callers[id].phase.Returned?
    ensures Internal(NextStep(s, id)) && Step(s, NextStep(s, id)).Some?
  {
    assert CallerInv(s, id, s.callers[id]);
    if s.once.Running? {
      assert CallerInv(s, s.once.winner, s.callers[s.once.winner]);
    }
    CallerCanMove(s, id);
  }

  /** Progress over whole runs. From any reachable state, whatever arrives or is canceled meanwhile, the
      code takes at most Measure(s) + 7 * arrivals steps of its own, and when it can take no further
      step, every call has returned. */
  lemma {:induction false} EveryCallReturns(init: State, past: seq<Event>, s: State, es: seq<Event>, t: State)
    requires Initial(init) && Exec(init, past) == Some(s) && Exec(s, es) == Some(t)
    ensures CountInternal(es) <= Measure(s) + 7 * CountArrivals(es)
    ensures (forall e :: Internal(e) ==> Step(t, e).None?) ==> AllReturned(t)
  {
    RunsKeepInv(init, past, s);
    ContinuationsKeepInv(s, es, t);
    forall id | id in t.callers && !t.callers[id].phase.Returned?
      ensures exists e :: Internal(e) && Step(t, e).Some?
    {
      NoDeadlock(t, id);
    }
  }
}
