/** Handler.ServeHTTP: any number of interleaved requests share the slot channel and the active counter.
    Each request runs the code of ServeHTTP step by step, with its stack of deferred calls, and owns a
    connection that lives by the close protocol. Callbacks may panic; the deferred calls run all the same. */
module Server {
  import opened Basics
  import opened Errors
  import opened Observers
  import C = CloseProtocol
  import ServerConfig

  /** Identifiers, within a connection, of the calls ServeHTTP itself makes. */
  const SERVER_CLOSE: nat := 0
  const SERVER_FORCE: nat := 1
  const CLOSE_CONTEXT: nat := 0

  datatype Config = Config(maxConnections: nat, allowInsecure: bool, authenticates: bool, observers: nat)

  datatype Response =
    | UpgradeRequired
    | Unauthorized
    | CapacityExhausted
    | AcceptFailed
    | Completed(report: Report)
    | Panicked

  datatype Deferred = ReleaseSlot | DecrementActive

  /** What is known of a session when it closes: the observers' responses, the handler's error, and the
      cause of the request context when the outcome was decided. */
  datatype Facts = Facts(begun: seq<bool>, err: Option<Err>, cause: Option<Err>)

  /** Where a request stands. The last two remember the phase and the move that ended the body. */
  datatype Phase =
    | Arrived
    | Authenticating
    | Admitting
    | Upgrading
    | Counting
    | Beginning(begun: seq<bool>)
    | InSession(begun: seq<bool>)
    | Classifying(begun: seq<bool>, err: Option<Err>)
    | Closing(facts: Facts, outcome: Outcome)
    | ForcingClosed(facts: Facts, outcome: Outcome)
    | Reporting(facts: Facts, outcome: Outcome, forced: bool)
    | Finishing(facts: Facts, forced: bool, report: Report, left: nat)
    | Unwinding(response: Response, ended: Phase, last: Move)
    | Done(response: Response, ended: Phase, last: Move)

  /** One step of one request. Results of callbacks and of the library come with the move. */
  datatype Move =
    | CheckTransport
    | Authenticate(ok: bool)
    | Acquire
    | Refuse
    | Accept(ok: bool)
    | Count
    | Begin(observer: nat, gives: bool)
    | StartSession
    | SessionReturns(result: Option<Err>)
    | Classify(cancelCause: Option<Err>)
    | CloseReturns
    | ForceReturns
    | StartFinish(given: Report)
    | RunFinisher(observer: nat, given: Report)
    | Return
    | Panic
    | RunDeferred(what: Deferred)
    | Exit
    | Conn(e: C.Event)

  datatype Request = Request(
    secure: bool,
    loopback: bool,
    phase: Phase,
    deferred: seq<Deferred>,
    conn: Option<C.State>)

  datatype State = State(config: Config, slots: nat, active: int, requests: map<nat, Request>)

  datatype Event =
    | Enter(id: nat, secure: bool, loopback: bool)
    | Do(id: nat, move: Move)

  // ----- the code -----

  predicate TransportOk(config: Config, r: Request) {
    r.secure || (config.allowInsecure && r.loopback)
  }

  /** The result of a finished call on the request's connection. */
  function ResultOf(conn: Option<C.State>, id: nat): Option<Err> {
    if conn.Some? && id in conn.value.callers && conn.value.callers[id].phase.Returned? then
      conn.value.callers[id].phase.result
    else None
  }

  predicate HasReturned(conn: Option<C.State>, id: nat) {
    conn.Some? && id in conn.value.callers && conn.value.callers[id].phase.Returned?
  }

  /** The body ends; the deferred calls are next. */
  function Stop(response: Response, r: Request, m: Move): Option<Phase> {
    Some(Unwinding(response, r.phase, m))
  }

  /** The body of ServeHTTP. */
  function NextPhase(config: Config, r: Request, m: Move): Option<Phase> {
    match (r.phase, m)
    case (Arrived, CheckTransport) =>
      if !TransportOk(config, r) then Stop(UpgradeRequired, r, m)
      else if config.authenticates then Some(Authenticating) else Some(Admitting)
    case (Authenticating, Authenticate(ok)) => if ok then Some(Admitting) else Stop(Unauthorized, r, m)
    case (Admitting, Acquire) => Some(Upgrading)
    case (Admitting, Refuse) => Stop(CapacityExhausted, r, m)
    case (Upgrading, Accept(ok)) => if ok then Some(Counting) else Stop(AcceptFailed, r, m)
    case (Counting, Count) => Some(Beginning([]))
    case (Beginning(begun), Begin(observer, gives)) =>
      if |begun| < config.observers && observer == |begun| then Some(Beginning(begun + [gives])) else None
    case (Beginning(begun), StartSession) => if |begun| == config.observers then Some(InSession(begun)) else None
    case (InSession(begun), SessionReturns(err)) => Some(Classifying(begun, err))
    case (Classifying(begun, err), Classify(cause)) =>
      Some(Closing(Facts(begun, err, cause), ServerOutcome(cause, err).0))
    case (Closing(facts, outcome), CloseReturns) =>
      if !HasReturned(r.conn, SERVER_CLOSE) then None
      else if ResultOf(r.conn, SERVER_CLOSE).Some? then Some(ForcingClosed(facts, outcome))
      else Some(Reporting(facts, outcome, false))
    case (ForcingClosed(facts, outcome), ForceReturns) =>
      if !HasReturned(r.conn, SERVER_FORCE) then None
      else Some(Reporting(facts, if ResultOf(r.conn, SERVER_FORCE).Some? then Failed else outcome, true))
    case (Reporting(facts, outcome, forced), StartFinish(report)) =>
      if report.outcome == outcome then Some(Finishing(facts, forced, report, |Finishers(facts.begun)|)) else None
    case (Finishing(facts, forced, report, left), RunFinisher(observer, given)) =>
      if 0 < left <= |Finishers(facts.begun)| && observer == Finishers(facts.begun)[left - 1] && given == report
      then Some(Finishing(facts, forced, report, left - 1)) else None
    case (Finishing(_, _, report, left), Return) => if left == 0 then Stop(Completed(report), r, m) else None
    case (Authenticating, Panic) => Stop(Panicked, r, m)
    case (Beginning(begun), Panic) => if |begun| < config.observers then Stop(Panicked, r, m) else None
    case (InSession(_), Panic) => Stop(Panicked, r, m)
    case (Finishing(_, _, _, left), Panic) => if left > 0 then Stop(Panicked, r, m) else None
    case (Unwinding(_, _, _), RunDeferred(what)) =>
      if r.deferred != [] && r.deferred[|r.deferred| - 1] == what then Some(r.phase) else None
    case (Unwinding(response, ended, last), Exit) =>
      if r.deferred == [] then Some(Done(response, ended, last)) else None
    case (_, Conn(_)) => if r.conn.Some? then Some(r.phase) else None
    case _ => None
  }

  function NextDeferred(r: Request, m: Move): seq<Deferred> {
    match m
    case Acquire => r.deferred + [ReleaseSlot]
    case Count => r.deferred + [DecrementActive]
    case RunDeferred(_) => if r.deferred != [] then r.deferred[..|r.deferred| - 1] else []
    case _ => r.deferred
  }

  /** What a move does to the request's connection: the event it stands for, if any. Other users of the
      connection may do anything except pose as ServeHTTP. */
  function ConnEvent(r: Request, m: Move): Option<C.Event> {
    match m
    case Classify(cause) =>
      var status := ServerOutcome(cause, if r.phase.Classifying? then r.phase.err else None).1;
      Some(C.Arrive(SERVER_CLOSE, C.CloseCall(Some(CLOSE_CONTEXT), status, "")))
    case CloseReturns =>
      if ResultOf(r.conn, SERVER_CLOSE).Some? then Some(C.Arrive(SERVER_FORCE, C.ForceCall)) else None
    case Conn(e) => Some(e)
    case _ => None
  }

  predicate Foreign(conn: C.State, e: C.Event) {
    (e.Arrive? ==> e.id != SERVER_CLOSE && e.id != SERVER_FORCE &&
                   (e.call.CloseCall? ==> e.call.ctx != Some(CLOSE_CONTEXT))) &&
    (e.CancelContext? && e.ctx == CLOSE_CONTEXT ==> SERVER_CLOSE in conn.callers)
  }

  const FRESH: C.State := C.State(true, map[], map[], C.Unused, C.Absent, None, false)

  /** None if the move cannot happen; the new connection otherwise. */
  function NextConn(r: Request, m: Move): Option<Option<C.State>> {
    if m == Accept(true) then Some(Some(FRESH))
    else
      var e := ConnEvent(r, m);
      if e.None? then Some(r.conn)
      else if r.conn.None? || (m.Conn? && !Foreign(r.conn.value, e.value)) then None
      else
        var next := C.Step(r.conn.value, e.value);
        if next.None? then None else Some(next)
  }

  /** One request on its own, without the shared counters. */
  function NextRequest(config: Config, r: Request, m: Move): Option<Request> {
    var phase, conn := NextPhase(config, r, m), NextConn(r, m);
    if phase.None? || conn.None? then None
    else Some(r.(phase := phase.value, deferred := NextDeferred(r, m), conn := conn.value))
  }

  /** Whether the shared state allows the move: a send on the slot channel, its default branch, and the
      receive that gives the slot back. */
  predicate Possible(s: State, m: Move) {
    (m.Acquire? ==> s.slots < s.config.maxConnections) &&
    (m.Refuse? ==> s.slots >= s.config.maxConnections) &&
    (m == RunDeferred(ReleaseSlot) ==> s.slots > 0)
  }

  function Step(s: State, e: Event): Option<State> {
    match e
    case Enter(id, secure, loopback) =>
      if id in s.requests then None
      else Some(s.(requests := s.requests[id := Request(secure, loopback, Arrived, [], None)]))
    case Do(id, m) =>
      if id !in s.requests || !Possible(s, m) then None
      else
        var next := NextRequest(s.config, s.requests[id], m);
        if next.None? then None
        else
          Some(State(s.config,
                     if m.Acquire? then s.slots + 1
                     else if m == RunDeferred(ReleaseSlot) && s.slots > 0 then s.slots - 1 else s.slots,
                     if m.Count? then s.active + 1
                     else if m == RunDeferred(DecrementActive) then s.active - 1 else s.active,
                     s.requests[id := next.value]))
  }

  /** A handler fresh from NewHandler. */
  predicate Initial(s: State) {
    1 <= s.config.maxConnections <= ServerConfig.MAX_CONNECTIONS && s.slots == 0 && s.active == 0 && s.requests == map[]
  }

  /** NewHandler, for a normalised configuration. */
  function NewHandler(n: ServerConfig.Normalized, observers: nat): State
    requires n.maxConnections >= 0
  {
    State(Config(n.maxConnections, n.allowInsecure, n.authenticate.Some?, observers), 0, 0, map[])
  }

  /** Every accepted configuration makes a handler that does what it asks for, with no slot taken and a
      limit of at most 4096. */
  lemma {:induction false} AcceptedConfigsMakeHandlers(lib: ServerConfig.Library, c: ServerConfig.Config, observers: nat)
    requires ServerConfig.Acceptable(lib, c)
    ensures ServerConfig.NormalForm(c).maxConnections >= 0
    ensures var s := NewHandler(ServerConfig.NormalForm(c), observers);
      Initial(s) && s.slots == 0 && s.active == 0 && s.requests == map[] &&
      s.config.maxConnections == (if c.maxConnections == 0 then 256 else c.maxConnections) <= 4096 &&
      s.config.allowInsecure == c.allowInsecure && s.config.observers == observers &&
      (s.config.authenticates <==> c.authenticate.Some?) && (s.config.authenticates <==> !c.allowAnonymous)
  {
    ServerConfig.NormalFormIsStable(lib, c);
  }

  ghost function Exec(s: State, es: seq<Event>): Option<State> {
    if es == [] then Some(s)
    else
      var before := Exec(s, es[..|es| - 1]);
      if before.None? then None else Step(before.value, es[|es| - 1])
  }

  // ----- one request: what every move keeps -----

  predicate Live(phase: Phase) {
    !phase.Unwinding? && !phase.Done?
  }

  /** The phase in which the body is, or ended. */
  function Core(phase: Phase): Phase {
    if Live(phase) then phase else phase.ended
  }

  /** The deferred calls the body has registered by a given phase. */
  function Registered(phase: Phase): seq<Deferred> {
    match phase
    case Arrived => []
    case Authenticating => []
    case Admitting => []
    case Upgrading => [ReleaseSlot]
    case Counting => [ReleaseSlot]
    case _ => [ReleaseSlot, DecrementActive]
  }

  /** Moves that end the body. */
  predicate Ends(m: Move) {
    m.CheckTransport? || m == Authenticate(false) || m.Refuse? || m == Accept(false) || m.Return? || m.Panic?
  }

  ghost predicate DeferredInv(r: Request) {
    Live(Core(r.phase)) && (!Live(r.phase) ==> Ends(r.phase.last)) &&
    match r.phase
    case Unwinding(_, ended, _) => r.deferred <= Registered(ended)
    case Done(_, _, _) => r.deferred == []
    case _ => r.deferred == Registered(r.phase)
  }

  ghost predicate PhaseInv(config: Config, phase: Phase) {
    match phase
    case Authenticating => config.authenticates
    case Beginning(begun) => |begun| <= config.observers
    case InSession(begun) => |begun| == config.observers
    case Classifying(begun, _) => |begun| == config.observers
    case Closing(facts, _) => |facts.begun| == config.observers
    case ForcingClosed(facts, _) => |facts.begun| == config.observers
    case Reporting(facts, _, _) => |facts.begun| == config.observers
    case Finishing(facts, _, _, left) => |facts.begun| == config.observers && left <= |Finishers(facts.begun)|
    case _ => true
  }

  /** The phases in which the body is inside a callback: authentication, an observer, the session or a
      finisher. */
  predicate InCallback(config: Config, phase: Phase) {
    phase.Authenticating? || phase.InSession? || (phase.Beginning? && |phase.begun| < config.observers) ||
    (phase.Finishing? && phase.left > 0)
  }

  /** Each response has one way to come about. */
  ghost predicate ResponseInv(config: Config, r: Request) {
    !Live(r.phase) ==>
      var ended, last := r.phase.ended, r.phase.last;
      match r.phase.response
      case UpgradeRequired => ended.Arrived? && last.CheckTransport? && !TransportOk(config, r)
      case Unauthorized => ended.Authenticating? && last == Authenticate(false)
      case CapacityExhausted => ended.Admitting? && last.Refuse?
      case AcceptFailed => ended.Upgrading? && last == Accept(false)
      case Completed(report) => ended.Finishing? && ended.left == 0 && ended.report == report && last.Return?
      case Panicked => last.Panic? && InCallback(config, ended)
  }

  /** ServeHTTP's own Close call: the status is the one the outcome asks for. */
  ghost predicate CloseCalled(conn: C.State, facts: Facts) {
    SERVER_CLOSE in conn.callers &&
    conn.callers[SERVER_CLOSE].call ==
      C.CloseCall(Some(CLOSE_CONTEXT), ServerOutcome(facts.cause, facts.err).1, "")
  }

  /** What the session is finally reported as. */
  function FinalOutcome(facts: Facts, closeResult: Option<Err>, forceResult: Option<Err>): Outcome {
    if closeResult.Some? && forceResult.Some? then Failed else ServerOutcome(facts.cause, facts.err).0
  }

  ghost predicate Settled(conn: C.State, facts: Facts, outcome: Outcome, forced: bool) {
    CloseCalled(conn, facts) && HasReturned(Some(conn), SERVER_CLOSE) &&
    (forced <==> ResultOf(Some(conn), SERVER_CLOSE).Some?) &&
    (forced <==> SERVER_FORCE in conn.callers) &&
    (forced ==> conn.callers[SERVER_FORCE].call.ForceCall? && HasReturned(Some(conn), SERVER_FORCE)) &&
    outcome == FinalOutcome(facts, ResultOf(Some(conn), SERVER_CLOSE), ResultOf(Some(conn), SERVER_FORCE))
  }

  /** ServeHTTP's own calls on the connection, by phase. */
  ghost predicate CallsInv(phase: Phase, conn: C.State) {
    match phase
    case Closing(facts, outcome) =>
      CloseCalled(conn, facts) && SERVER_FORCE !in conn.callers && outcome == ServerOutcome(facts.cause, facts.err).0
    case ForcingClosed(facts, outcome) =>
      CloseCalled(conn, facts) && HasReturned(Some(conn), SERVER_CLOSE) &&
      ResultOf(Some(conn), SERVER_CLOSE).Some? &&
      SERVER_FORCE in conn.callers && conn.callers[SERVER_FORCE].call.ForceCall? &&
      outcome == ServerOutcome(facts.cause, facts.err).0
    case Reporting(facts, outcome, forced) => Settled(conn, facts, outcome, forced)
    case Finishing(facts, forced, report, _) => Settled(conn, facts, report.outcome, forced)
    case _ => SERVER_CLOSE !in conn.callers && SERVER_FORCE !in conn.callers
  }

  ghost predicate ConnInv(phase: Phase, conn: C.State) {
    C.Inv(conn) && conn.connected && CallsInv(phase, conn)
  }

  /** The part that concerns the body alone. */
  ghost predicate BodyInv(config: Config, r: Request) {
    DeferredInv(r) && PhaseInv(config, Core(r.phase))
  }

  /** The transport check stands, and the connection is there from the upgrade on. */
  ghost predicate UpgradeInv(config: Config, r: Request) {
    (Core(r.phase).Arrived? || TransportOk(config, r)) &&
    (r.conn.None? <==> Registered(Core(r.phase)) == [] || Core(r.phase).Upgrading?)
  }

  ghost predicate RequestInv(config: Config, r: Request) {
    BodyInv(config, r) && ResponseInv(config, r) &&
    UpgradeInv(config, r) &&
    (r.conn.Some? ==> ConnInv(Core(r.phase), r.conn.value))
  }

  /** Finished calls on a connection stay finished. */
  lemma {:induction false} ConnMovesKeepInv(phase: Phase, conn: C.State, e: C.Event, next: C.State)
    requires ConnInv(phase, conn) && Foreign(conn, e) && C.Step(conn, e) == Some(next)
    ensures ConnInv(phase, next)
  {
    C.StepKeepsInv(conn, e, next);
    C.StepIsMonotone(conn, e, next);
    NewCallersArrive(conn, e, next);
  }

  lemma {:induction false} NewCallersArrive(conn: C.State, e: C.Event, next: C.State)
    requires C.Step(conn, e) == Some(next)
    ensures forall id :: id in next.callers && id !in conn.callers ==> e.Arrive? && e.id == id
    ensures e.Arrive? ==> next.callers == conn.callers[e.id := next.callers[e.id]] && next.callers[e.id].call == e.call
  {
  }

  lemma {:induction false} ServerCallsKeepConn(config: Config, r: Request, m: Move, next: Request)
    requires RequestInv(config, r) && NextRequest(config, r, m) == Some(next)
    requires !m.Conn? && ConnEvent(r, m).Some?
    ensures next.conn.Some? && ConnInv(Core(next.phase), next.conn.value)
  {
    C.StepKeepsInv(r.conn.value, ConnEvent(r, m).value, next.conn.value);
    NewCallersArrive(r.conn.value, ConnEvent(r, m).value, next.conn.value);
  }

  lemma {:induction false} AcceptGivesConn(config: Config, r: Request, next: Phase)
    requires NextPhase(config, r, Accept(true)) == Some(next)
    ensures ConnInv(Core(next), FRESH)
  {
  }

  lemma {:induction false} CoreStays(config: Config, r: Request, m: Move, next: Phase)
    requires NextPhase(config, r, m) == Some(next) && !Live(next)
    ensures Core(next) == Core(r.phase)
  {
  }

  /** Moves of the body that leave the connection alone. */
  lemma {:induction false} BodyKeepsCalls(config: Config, r: Request, m: Move, next: Phase)
    requires r.conn.Some? && CallsInv(r.phase, r.conn.value) && Live(next)
    requires NextPhase(config, r, m) == Some(next) && ConnEvent(r, m).None?
    ensures CallsInv(next, r.conn.value)
  {
  }

  lemma {:induction false} QuietMovesKeepCalls(config: Config, r: Request, m: Move, next: Phase)
    requires r.conn.Some? && CallsInv(Core(r.phase), r.conn.value)
    requires NextPhase(config, r, m) == Some(next) && ConnEvent(r, m).None?
    ensures CallsInv(Core(next), r.conn.value)
  {
    if Live(next) {
      BodyKeepsCalls(config, r, m, next);
    } else {
      CoreStays(config, r, m, next);
    }
  }

  lemma {:induction false} MoveKeepsConn(config: Config, r: Request, m: Move, next: Request)
    requires RequestInv(config, r) && NextRequest(config, r, m) == Some(next)
    ensures next.conn.Some? ==> ConnInv(Core(next.phase), next.conn.value)
  {
    if m == Accept(true) {
      AcceptGivesConn(config, r, next.phase);
    } else if m.Conn? {
      ConnMovesKeepInv(Core(r.phase), r.conn.value, m.e, next.conn.value);
    } else if ConnEvent(r, m).Some? {
      ServerCallsKeepConn(config, r, m, next);
    } else if r.conn.Some? {
      QuietMovesKeepCalls(config, r, m, next.phase);
    }
  }

  lemma {:induction false} BodyKeepsDeferred(config: Config, r: Request, m: Move, next: Request)
    requires Live(r.phase) && r.deferred == Registered(r.phase) && NextRequest(config, r, m) == Some(next)
    ensures DeferredInv(next)
  {
  }

  lemma {:induction false} UnwindingKeepsDeferred(config: Config, r: Request, m: Move, next: Request)
    requires !Live(r.phase) && DeferredInv(r) && NextRequest(config, r, m) == Some(next)
    ensures DeferredInv(next)
  {
  }

  lemma {:induction false} MoveKeepsDeferred(config: Config, r: Request, m: Move, next: Request)
    requires DeferredInv(r) && NextRequest(config, r, m) == Some(next)
    ensures DeferredInv(next)
  {
    if Live(r.phase) {
      BodyKeepsDeferred(config, r, m, next);
    } else {
      UnwindingKeepsDeferred(config, r, m, next);
    }
  }

  lemma {:induction false} MoveKeepsPhase(config: Config, r: Request, m: Move, next: Phase)
    requires PhaseInv(config, Core(r.phase)) && NextPhase(config, r, m) == Some(next)
    ensures PhaseInv(config, Core(next))
  {
  }

  /** The move that ends the body says why. */
  lemma {:induction false} EndingSaysWhy(config: Config, r: Request, m: Move, next: Request)
    requires Live(r.phase) && NextRequest(config, r, m) == Some(next)
    ensures ResponseInv(config, next)
  {
  }

  lemma {:induction false} UnwindingKeepsResponse(config: Config, r: Request, m: Move, next: Request)
    requires !Live(r.phase) && ResponseInv(config, r) && NextRequest(config, r, m) == Some(next)
    ensures ResponseInv(config, next)
  {
    assert next.phase == r.phase || next.phase == Done(r.phase.response, r.phase.ended, r.phase.last);
  }

  lemma {:induction false} MoveKeepsResponse(config: Config, r: Request, m: Move, next: Request)
    requires PhaseInv(config, Core(r.phase)) && ResponseInv(config, r) && NextRequest(config, r, m) == Some(next)
    ensures ResponseInv(config, next) && PhaseInv(config, Core(next.phase))
  {
    MoveKeepsPhase(config, r, m, next.phase);
    if Live(r.phase) {
      EndingSaysWhy(config, r, m, next);
    } else {
      UnwindingKeepsResponse(config, r, m, next);
    }
  }

  lemma {:induction false} ConnComesWithAccept(config: Config, r: Request, m: Move, next: Request)
    requires UpgradeInv(config, r) && NextRequest(config, r, m) == Some(next)
    ensures UpgradeInv(config, next)
  {
  }

  lemma {:induction false} MoveKeepsRequest(config: Config, r: Request, m: Move, next: Request)
    requires RequestInv(config, r) && NextRequest(config, r, m) == Some(next)
    ensures RequestInv(config, next)
    ensures next.secure == r.secure && next.loopback == r.loopback
  {
    MoveKeepsConn(config, r, m, next);
    MoveKeepsDeferred(config, r, m, next);
    MoveKeepsResponse(config, r, m, next);
    ConnComesWithAccept(config, r, m, next);
  }

  // ----- all requests: what every step keeps -----

  /** The requests that still owe a deferred call. */
  ghost function Owing(requests: map<nat, Request>, what: Deferred): set<nat> {
    set id | id in requests && what in requests[id].deferred
  }

  ghost predicate Inv(s: State) {
    1 <= s.config.maxConnections <= ServerConfig.MAX_CONNECTIONS &&
    (forall id :: id in s.requests ==> RequestInv(s.config, s.requests[id])) &&
    s.slots == |Owing(s.requests, ReleaseSlot)| && s.slots <= s.config.maxConnections &&
    s.active == |Owing(s.requests, DecrementActive)|
  }

  predicate Incurs(m: Move, what: Deferred) {
    (what == ReleaseSlot && m.Acquire?) || (what == DecrementActive && m.Count?)
  }

  /** How a move changes what its request owes. */
  lemma {:induction false} MoveChangesDebt(config: Config, r: Request, m: Move, next: Request, what: Deferred)
    requires DeferredInv(r) && NextRequest(config, r, m) == Some(next)
    ensures if Incurs(m, what) then what !in r.deferred && what in next.deferred
            else if m == RunDeferred(what) then what in r.deferred && what !in next.deferred
            else what in next.deferred <==> what in r.deferred
  {
  }

  lemma {:induction false} UpdateCountsDebt(requests: map<nat, Request>, id: nat, r: Request, what: Deferred)
    ensures |Owing(requests[id := r], what)| ==
              |Owing(requests, what)| - (if id in requests && what in requests[id].deferred then 1 else 0)
                                      + (if what in r.deferred then 1 else 0)
  {
    var before, after := Owing(requests, what), Owing(requests[id := r], what);
    WithAndWithout(before, id);
    WithAndWithout(after, id);
    assert after - {id} == before - {id} by {
      forall x | x != id
        ensures x in after <==> x in before
      {
      }
    }
  }

  lemma {:induction false} WithAndWithout(s: set<nat>, id: nat)
    ensures |s| == |s - {id}| + (if id in s then 1 else 0)
  {
    if id in s { assert s == (s - {id}) + {id}; } else { assert s == s - {id}; }
  }

  /** A step moves one request, by its own code, and the counters by one. */
  lemma {:induction false} StepMovesOne(s: State, e: Event, t: State)
    requires Step(s, e) == Some(t)
    ensures e.id in t.requests && t.config == s.config && t.requests == s.requests[e.id := t.requests[e.id]]
    ensures e.Enter? ==> e.id !in s.requests && t.slots == s.slots && t.active == s.active &&
                         t.requests[e.id] == Request(e.secure, e.loopback, Arrived, [], None)
    ensures e.Do? ==> e.id in s.requests && NextRequest(s.config, s.requests[e.id], e.move) == Some(t.requests[e.id]) &&
                      (e.move.Acquire? ==> s.slots < s.config.maxConnections)
    ensures e.Do? ==> t.slots == s.slots + (if e.move.Acquire? then 1 else if e.move == RunDeferred(ReleaseSlot) then -1 else 0)
    ensures e.Do? ==> t.active == s.active + (if e.move.Count? then 1 else if e.move == RunDeferred(DecrementActive) then -1 else 0)
  {
  }

  lemma {:induction false} StepKeepsCounts(s: State, e: Event, t: State)
    requires Inv(s) && Step(s, e) == Some(t)
    ensures t.slots == |Owing(t.requests, ReleaseSlot)| && t.slots <= t.config.maxConnections
    ensures t.active == |Owing(t.requests, DecrementActive)|
  {
    StepMovesOne(s, e, t);
    UpdateCountsDebt(s.requests, e.id, t.requests[e.id], ReleaseSlot);
    UpdateCountsDebt(s.requests, e.id, t.requests[e.id], DecrementActive);
    if e.Do? {
      MoveChangesDebt(s.config, s.requests[e.id], e.move, t.requests[e.id], ReleaseSlot);
      MoveChangesDebt(s.config, s.requests[e.id], e.move, t.requests[e.id], DecrementActive);
    }
  }

  lemma {:induction false} StepKeepsInv(s: State, e: Event, t: State)
    requires Inv(s) && Step(s, e) == Some(t)
    ensures Inv(t) && t.config == s.config
  {
    StepKeepsCounts(s, e, t);
    StepMovesOne(s, e, t);
    if e.Do? { MoveKeepsRequest(s.config, s.requests[e.id], e.move, t.requests[e.id]); }
  }

  /** Nothing is ruled out that could happen: authentication, upgrade, observers and the callback may end
      either way, or panic; slots are taken and refused exactly by their number. */
  lemma {:induction false} NothingIsRuledOut(s: State, id: nat, ok: bool, err: Option<Err>)
    requires id in s.requests
    ensures var phase := s.requests[id].phase;
      (phase.Authenticating? ==> Step(s, Do(id, Authenticate(ok))).Some? && Step(s, Do(id, Panic)).Some?) &&
      (phase.Admitting? ==> (Step(s, Do(id, Acquire)).Some? <==> s.slots < s.config.maxConnections) &&
                            (Step(s, Do(id, Refuse)).Some? <==> s.slots >= s.config.maxConnections)) &&
      (phase.Upgrading? ==> Step(s, Do(id, Accept(ok))).Some?) &&
      (phase.Beginning? && |phase.begun| < s.config.observers ==>
         Step(s, Do(id, Begin(|phase.begun|, ok))).Some? && Step(s, Do(id, Panic)).Some?) &&
      (phase.InSession? ==> Step(s, Do(id, SessionReturns(err))).Some? && Step(s, Do(id, Panic)).Some?) &&
      (phase.Finishing? && phase.left > 0 ==> Step(s, Do(id, Panic)).Some?)
  {
  }
}
