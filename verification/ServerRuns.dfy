/** What ServeHTTP does over whole runs: each request's moves are those of the sequential code, and what
    follows from it for capacity, admission, observers, responses and outcomes. */
module ServerRuns {
  import opened Basics
  import opened Errors
  import opened Observers
  import opened Server
  import C = CloseProtocol
  import ServerConfig

  // ----- one request: its moves are those of the sequential code -----

  function BeginMoves(begun: seq<bool>): seq<Move> {
    seq(|begun|, i requires 0 <= i < |begun| => Begin(i, begun[i]))
  }

  /** The finishers from the last down to number `left`. */
  function FinishMoves(finishers: seq<nat>, report: Report, left: nat): seq<Move> {
    if left > |finishers| then []
    else
      var n := |finishers| - left;
      seq(n, i requires 0 <= i < n => RunFinisher(finishers[|finishers| - 1 - i], report))
  }

  /** The checks before the slot channel. */
  function Checks(config: Config): seq<Move> {
    if config.authenticates then [CheckTransport] + [Authenticate(true)] else [CheckTransport]
  }

  /** The moves that admit a request and begin its session, up to the callback. */
  function Opening(config: Config, begun: seq<bool>): seq<Move> {
    Checks(config) + [Acquire] + [Accept(true)] + [Count] + BeginMoves(begun)
  }

  /** The observers' responses gathered so far; empty before the session begins. */
  function BegunOf(phase: Phase): seq<bool> {
    match phase
    case Beginning(begun) => begun
    case InSession(begun) => begun
    case Classifying(begun, _) => begun
    case Closing(facts, _) => facts.begun
    case ForcingClosed(facts, _) => facts.begun
    case Reporting(facts, _, _) => facts.begun
    case Finishing(facts, _, _, _) => facts.begun
    case _ => []
  }

  /** The callback has been called. */
  predicate Started(phase: Phase) {
    Live(phase) && !phase.Arrived? && !phase.Authenticating? && !phase.Admitting? && !phase.Upgrading? &&
    !phase.Counting? && !phase.Beginning?
  }

  /** What the body has done before the callback is called. */
  function Admission(config: Config, phase: Phase): seq<Move> {
    match phase
    case Arrived => []
    case Authenticating => [CheckTransport]
    case Admitting => Checks(config)
    case Upgrading => Checks(config) + [Acquire]
    case Counting => Checks(config) + [Acquire] + [Accept(true)]
    case Beginning(begun) => Opening(config, begun)
    case _ => []
  }

  /** From the callback's return to the decision how to report the session. */
  function Ending(facts: Facts, forced: bool): seq<Move> {
    if forced then [SessionReturns(facts.err)] + [Classify(facts.cause)] + [CloseReturns] + [ForceReturns]
    else [SessionReturns(facts.err)] + [Classify(facts.cause)] + [CloseReturns]
  }

  /** What the body has done since it called the callback. */
  function AfterStart(phase: Phase): seq<Move> {
    match phase
    case Classifying(_, err) => [SessionReturns(err)]
    case Closing(facts, _) => [SessionReturns(facts.err)] + [Classify(facts.cause)]
    case ForcingClosed(facts, _) => Ending(facts, false)
    case Reporting(facts, _, forced) => Ending(facts, forced)
    case Finishing(facts, forced, report, left) =>
      Ending(facts, forced) + [StartFinish(report)] + FinishMoves(Finishers(facts.begun), report, left)
    case _ => []
  }

  /** The moves the body has made by a given phase, read off the code from top to bottom. */
  function Script(config: Config, phase: Phase): seq<Move> {
    if Started(phase) then Opening(config, BegunOf(phase)) + [StartSession] + AfterStart(phase)
    else Admission(config, phase)
  }

  predicate OpeningMove(m: Move) {
    m.CheckTransport? || m == Authenticate(true) || m.Acquire? || m == Accept(true) || m.Count? || m.Begin?
  }

  predicate SessionMove(m: Move) {
    m.SessionReturns? || m.Classify? || m.CloseReturns? || m.ForceReturns? || m.StartFinish? || m.RunFinisher?
  }

  /** Deferred calls run last in, first out, down to the first `left`. */
  function UnwindMoves(registered: seq<Deferred>, left: nat): seq<Move> {
    if left > |registered| then []
    else
      var n := |registered| - left;
      seq(n, i requires 0 <= i < n => RunDeferred(registered[|registered| - 1 - i]))
  }

  /** The moves that follow the body's script: the one that ended it, the deferred calls, the exit. */
  function Tail(r: Request): seq<Move> {
    if Live(r.phase) then []
    else if r.phase.Unwinding? then [r.phase.last] + UnwindMoves(Registered(r.phase.ended), |r.deferred|)
    else [r.phase.last] + UnwindMoves(Registered(r.phase.ended), 0) + [Exit]
  }

  /** All moves of a request so far, apart from those of its connection. */
  function Story(config: Config, r: Request): seq<Move> {
    Script(config, Core(r.phase)) + Tail(r)
  }

  lemma {:induction false} AdmissionExtends(config: Config, r: Request, m: Move, next: Phase)
    requires Live(r.phase) && PhaseInv(config, r.phase) && NextPhase(config, r, m) == Some(next)
    requires Live(next) && !Started(next) && !m.Conn?
    ensures !Started(r.phase) && Admission(config, next) == Admission(config, r.phase) + [m]
  {
    match m
    case CheckTransport => assert [] + [m] == [m];
    case Count => assert BeginMoves([]) == [];
    case Begin(_, _) => assert BeginMoves(next.begun) == BeginMoves(r.phase.begun) + [m];
    case _ =>
  }

  lemma {:induction false} FinishMovesGrow(finishers: seq<nat>, report: Report, left: nat)
    requires left <= |finishers|
    ensures left == |finishers| ==> FinishMoves(finishers, report, left) == []
    ensures left > 0 ==> FinishMoves(finishers, report, left - 1) ==
                           FinishMoves(finishers, report, left) + [RunFinisher(finishers[left - 1], report)]
  {
  }

  lemma {:induction false} FinishExtends(config: Config, r: Request, m: Move, next: Phase)
    requires Started(r.phase) && PhaseInv(config, r.phase) && NextPhase(config, r, m) == Some(next)
    requires m.StartFinish? || m.RunFinisher?
    ensures Started(next) && BegunOf(next) == BegunOf(r.phase) && AfterStart(next) == AfterStart(r.phase) + [m]
  {
    if m.StartFinish? {
      FinishMovesGrow(Finishers(next.facts.begun), next.report, next.left);
    } else {
      FinishMovesGrow(Finishers(r.phase.facts.begun), r.phase.report, r.phase.left);
    }
  }

  lemma {:induction false} SessionExtends(config: Config, r: Request, m: Move, next: Phase)
    requires Started(r.phase) && PhaseInv(config, r.phase) && NextPhase(config, r, m) == Some(next)
    requires Live(next) && !m.Conn?
    ensures Started(next) && BegunOf(next) == BegunOf(r.phase) && AfterStart(next) == AfterStart(r.phase) + [m]
  {
    if m.StartFinish? || m.RunFinisher? {
      FinishExtends(config, r, m, next);
    } else if m.SessionReturns? {
      assert [] + [m] == [m];
    }
  }

  lemma {:induction false} StartExtends(config: Config, r: Request, m: Move, next: Phase)
    requires Live(r.phase) && !Started(r.phase) && NextPhase(config, r, m) == Some(next) && Started(next) && !m.Conn?
    ensures m.StartSession? && r.phase.Beginning? && next == InSession(r.phase.begun)
  {
  }

  lemma {:induction false} BodyExtendsScript(config: Config, r: Request, m: Move, next: Phase)
    requires Live(r.phase) && PhaseInv(config, r.phase) && NextPhase(config, r, m) == Some(next) && !m.Conn?
    requires Live(next) && PhaseInv(config, next)
    ensures Script(config, next) == Script(config, r.phase) + [m]
  {
    if !Started(next) {
      AdmissionExtends(config, r, m, next);
    } else if Started(r.phase) {
      SessionExtends(config, r, m, next);
    } else {
      StartExtends(config, r, m, next);
    }
  }

  lemma {:induction false} PhaseMoves(config: Config, r: Request, m: Move, next: Phase)
    requires DeferredInv(r) && NextPhase(config, r, m) == Some(next) && !m.Conn?
    ensures Live(next) ==> Live(r.phase)
    ensures !Live(next) ==> Core(next) == Core(r.phase)
    ensures !Live(next) && Live(r.phase) ==> next.Unwinding? && next.last == m && !m.Acquire? && !m.Count? && !m.RunDeferred?
    ensures !Live(r.phase) ==> next.last == r.phase.last && r.phase.Unwinding?
    ensures !Live(r.phase) ==> if next.Done? then m.Exit? && r.deferred == [] else
                                 m.RunDeferred? && r.deferred != [] && m.what == r.deferred[|r.deferred| - 1]
  {
  }

  /** The move by which the body ends, or one that follows it. */
  lemma {:induction false} UnwindMoveExtendsTail(config: Config, r: Request, m: Move, next: Request)
    requires DeferredInv(r) && DeferredInv(next) && NextRequest(config, r, m) == Some(next) && !m.Conn?
    requires !Live(next.phase)
    ensures Core(next.phase) == Core(r.phase) && Tail(next) == Tail(r) + [m]
  {
    PhaseMoves(config, r, m, next.phase);
    var all := Registered(Core(r.phase));
    if Live(r.phase) {
      assert UnwindMoves(all, |next.deferred|) == [];
    } else if m.RunDeferred? {
      assert UnwindMoves(all, |next.deferred|) == UnwindMoves(all, |r.deferred|) + [m];
    }
  }

  lemma {:induction false} StoryOfLive(config: Config, r: Request)
    requires Live(r.phase)
    ensures Story(config, r) == Script(config, r.phase)
  {
  }

  lemma {:induction false} LongerTail(config: Config, r: Request, next: Request, m: Move)
    requires Core(next.phase) == Core(r.phase) && Tail(next) == Tail(r) + [m]
    ensures Story(config, next) == Story(config, r) + [m]
  {
  }

  lemma {:induction false} OwnMoveExtendsStory(config: Config, r: Request, m: Move, next: Request)
    requires BodyInv(config, r) && BodyInv(config, next) && NextRequest(config, r, m) == Some(next) && !m.Conn?
    ensures Story(config, next) == Story(config, r) + [m]
  {
    if Live(next.phase) {
      PhaseMoves(config, r, m, next.phase);
      BodyExtendsScript(config, r, m, next.phase);
      StoryOfLive(config, r);
      StoryOfLive(config, next);
    } else {
      UnwindMoveExtendsTail(config, r, m, next);
      LongerTail(config, r, next, m);
    }
  }

  lemma {:induction false} MoveExtendsStory(config: Config, r: Request, m: Move, next: Request)
    requires BodyInv(config, r) && BodyInv(config, next) && NextRequest(config, r, m) == Some(next)
    ensures Story(config, next) == Story(config, r) + (if m.Conn? then [] else [m])
  {
    if m.Conn? {
      assert next.phase == r.phase && next.deferred == r.deferred;
    } else {
      OwnMoveExtendsStory(config, r, m, next);
    }
  }

  // ----- all requests -----

  /** A request's own moves in a run, in order, without those of its connection. */
  ghost function TraceOf(es: seq<Event>, id: nat): seq<Move> {
    if es == [] then []
    else
      var e := es[|es| - 1];
      TraceOf(es[..|es| - 1], id) + (if e.Do? && e.id == id && !e.move.Conn? then [e.move] else [])
  }

  /** Every request's moves in the run are its story. */
  ghost predicate Told(es: seq<Event>, s: State) {
    forall id :: TraceOf(es, id) == StoryOf(s, id)
  }

  function StoryOf(s: State, id: nat): seq<Move> {
    if id in s.requests then Story(s.config, s.requests[id]) else []
  }

  lemma {:induction false} StepExtendsTrace(es: seq<Event>, s: State, t: State, id: nat)
    requires es != [] && Step(s, es[|es| - 1]) == Some(t)
    requires id in s.requests ==> BodyInv(s.config, s.requests[id])
    requires id in t.requests ==> BodyInv(t.config, t.requests[id])
    requires TraceOf(es[..|es| - 1], id) == StoryOf(s, id)
    ensures TraceOf(es, id) == StoryOf(t, id)
  {
    var e := es[|es| - 1];
    StepMovesOne(s, e, t);
    if e.Do? && e.id == id {
      MoveExtendsStory(s.config, s.requests[id], e.move, t.requests[id]);
    } else if e.id == id {
      assert StoryOf(t, id) == [];
    } else {
      assert StoryOf(t, id) == StoryOf(s, id);
    }
  }

  lemma {:induction false} InvCoversBody(s: State, id: nat)
    requires Inv(s) && id in s.requests
    ensures BodyInv(s.config, s.requests[id]) && RequestInv(s.config, s.requests[id])
  {
  }

  /** Interleaving is invisible to a request: in every run, its moves are exactly those of the sequential
      code up to where it stands. */
  lemma {:induction false} RunsKeepInv(init: State, es: seq<Event>, s: State)
    requires Initial(init) && Exec(init, es) == Some(s)
    ensures Inv(s) && s.config == init.config && Told(es, s)
  {
    if es != [] {
      var before, e := es[..|es| - 1], es[|es| - 1];
      var t := Exec(init, before).value;
      RunsKeepInv(init, before, t);
      StepKeepsInv(t, e, s);
      forall id: nat
        ensures TraceOf(es, id) == StoryOf(s, id)
      {
        if id in t.requests { InvCoversBody(t, id); }
        if id in s.requests { InvCoversBody(s, id); }
        StepExtendsTrace(es, t, s, id);
      }
    }
  }

  /** The same for one request. */
  lemma {:induction false} ReachedRequest(init: State, es: seq<Event>, s: State, id: nat)
    requires Initial(init) && Exec(init, es) == Some(s)
    ensures s.config == init.config
    ensures id in s.requests ==> BodyInv(s.config, s.requests[id]) && RequestInv(s.config, s.requests[id])
    ensures TraceOf(es, id) == if id in s.requests then Story(s.config, s.requests[id]) else []
  {
    RunsKeepInv(init, es, s);
    if id in s.requests { InvCoversBody(s, id); }
    assert TraceOf(es, id) == StoryOf(s, id);
  }

  lemma {:induction false} PrefixRuns(init: State, es: seq<Event>, n: nat)
    requires Exec(init, es).Some? && n < |es|
    ensures Exec(init, es[..n]).Some? && Step(Exec(init, es[..n]).value, es[n]).Some?
  {
    if n == |es| - 1 {
      assert es[..n] == es[..|es| - 1];
    } else {
      PrefixRuns(init, es[..|es| - 1], n);
      assert es[..|es| - 1][..n] == es[..n];
    }
  }

  /** A request enters once, and its connection stays what it was then. */
  lemma {:induction false} EnteredOnce(init: State, es: seq<Event>, s: State, id: nat, secure: bool, loopback: bool)
    requires Initial(init) && Exec(init, es) == Some(s)
    ensures Enter(id, secure, loopback) in es <==>
              id in s.requests && s.requests[id].secure == secure && s.requests[id].loopback == loopback
  {
    if es != [] {
      var before, e := es[..|es| - 1], es[|es| - 1];
      EnteredOnce(init, before, Exec(init, before).value, id, secure, loopback);
      StepMovesOne(Exec(init, before).value, e, s);
      assert es == before + [e];
    }
  }

  // ----- main results -----

  /** Requests between taking a slot and giving it back, as the run shows them. */
  ghost function Holding(es: seq<Event>, s: State): set<nat> {
    set id | id in s.requests && Acquire in TraceOf(es, id) && RunDeferred(ReleaseSlot) !in TraceOf(es, id)
  }

  /** Requests between the increment of the active counter and its decrement. */
  ghost function Counted(es: seq<Event>, s: State): set<nat> {
    set id | id in s.requests && Count in TraceOf(es, id) && RunDeferred(DecrementActive) !in TraceOf(es, id)
  }

  lemma {:induction false} OpeningMoves(config: Config, begun: seq<bool>)
    ensures Acquire in Opening(config, begun) && Count in Opening(config, begun)
    ensures forall m :: m in Opening(config, begun) ==> OpeningMove(m)
  {
    var gate := Checks(config) + [Acquire] + [Accept(true)] + [Count];
    assert gate[|gate| - 3] == Acquire && gate[|gate| - 1] == Count;
    assert forall m :: m in gate ==> OpeningMove(m);
    assert forall m :: m in BeginMoves(begun) ==> OpeningMove(m);
    assert Opening(config, begun) == gate + BeginMoves(begun);
  }

  lemma {:induction false} AdmissionMoves(config: Config, phase: Phase)
    requires Live(phase) && !Started(phase)
    ensures forall m :: m in Admission(config, phase) ==> OpeningMove(m)
    ensures Acquire in Admission(config, phase) <==> ReleaseSlot in Registered(phase)
    ensures Count in Admission(config, phase) <==> DecrementActive in Registered(phase)
  {
    if phase.Beginning? { OpeningMoves(config, phase.begun); }
  }

  lemma {:induction false} AfterStartMoves(phase: Phase)
    requires Started(phase) && (phase.Finishing? ==> phase.left <= |Finishers(phase.facts.begun)|)
    ensures forall m :: m in AfterStart(phase) ==> SessionMove(m)
  {
  }

  /** A move of a script, by kind. */
  lemma {:induction false} ScriptMoves(config: Config, phase: Phase, m: Move)
    requires Live(phase) && PhaseInv(config, phase)
    ensures m in Script(config, phase) ==> OpeningMove(m) || SessionMove(m) || (m.StartSession? && Started(phase))
  {
    if Started(phase) {
      OpeningMoves(config, BegunOf(phase));
      AfterStartMoves(phase);
      JoinMoves(Opening(config, BegunOf(phase)), AfterStart(phase), m);
    } else {
      AdmissionMoves(config, phase);
    }
  }

  lemma {:induction false} JoinMoves(opening: seq<Move>, after: seq<Move>, m: Move)
    ensures m in opening + [StartSession] + after <==> m in opening || m == StartSession || m in after
  {
    assert m in opening + [StartSession] + after <==> m in opening + [StartSession] || m in after;
  }

  lemma {:induction false} UnwindShows(all: seq<Deferred>, left: nat, what: Deferred)
    requires left <= |all|
    ensures RunDeferred(what) in UnwindMoves(all, left) <==> what in all[left..]
    ensures forall m :: m in UnwindMoves(all, left) ==> m.RunDeferred?
  {
    var moves := UnwindMoves(all, left);
    forall i | 0 <= i < |all| - left
      ensures moves[|moves| - 1 - i] == RunDeferred(all[left..][i])
    {
    }
    if what in all[left..] {
      var i :| 0 <= i < |all| - left && all[left..][i] == what;
      assert moves[|moves| - 1 - i] == RunDeferred(what);
    }
  }

  lemma {:induction false} TailShows(r: Request, what: Deferred)
    requires DeferredInv(r)
    ensures RunDeferred(what) in Tail(r) <==> what in Registered(Core(r.phase)) && what !in r.deferred
    ensures forall m :: m in Tail(r) ==> Ends(m) || m.RunDeferred? || m.Exit?
  {
    if r.phase.Unwinding? {
      UnwindShows(Registered(r.phase.ended), |r.deferred|, what);
    } else if r.phase.Done? {
      UnwindShows(Registered(r.phase.ended), 0, what);
    }
  }

  /** The move that incurs a deferred call. */
  function Incurring(what: Deferred): Move {
    if what == ReleaseSlot then Acquire else Count
  }

  lemma {:induction false} ScriptShowsDebt(config: Config, phase: Phase, what: Deferred)
    requires Live(phase) && PhaseInv(config, phase)
    ensures RunDeferred(what) !in Script(config, phase)
    ensures Incurring(what) in Script(config, phase) <==> what in Registered(phase)
  {
    ScriptMoves(config, phase, RunDeferred(what));
    if Started(phase) {
      OpeningMoves(config, BegunOf(phase));
      JoinMoves(Opening(config, BegunOf(phase)), AfterStart(phase), Incurring(what));
    } else {
      AdmissionMoves(config, phase);
    }
  }

  lemma {:induction false} TailShowsDebt(r: Request, what: Deferred)
    requires DeferredInv(r)
    ensures Incurring(what) !in Tail(r)
    ensures RunDeferred(what) in Tail(r) <==> what in Registered(Core(r.phase)) && what !in r.deferred
    ensures what in r.deferred ==> what in Registered(Core(r.phase))
  {
    TailShows(r, what);
  }

  lemma {:induction false} StoryShowsDebt(config: Config, r: Request, what: Deferred)
    requires BodyInv(config, r)
    ensures what in r.deferred <==> Incurring(what) in Story(config, r) && RunDeferred(what) !in Story(config, r)
  {
    ScriptShowsDebt(config, Core(r.phase), what);
    TailShowsDebt(r, what);
    MemberOfSum(Script(config, Core(r.phase)), Tail(r), Incurring(what));
    MemberOfSum(Script(config, Core(r.phase)), Tail(r), RunDeferred(what));
  }

  lemma {:induction false} DebtsNest(config: Config, r: Request)
    requires BodyInv(config, r)
    ensures DecrementActive in r.deferred ==> ReleaseSlot in r.deferred
    ensures r.phase.Done? ==> r.deferred == []
  {
    if DecrementActive in r.deferred { assert r.deferred[0] == Registered(Core(r.phase))[0]; }
  }

  lemma {:induction false} TracesShowDebts(es: seq<Event>, s: State)
    requires Inv(s) && Told(es, s)
    ensures Holding(es, s) == Owing(s.requests, ReleaseSlot)
    ensures Counted(es, s) == Owing(s.requests, DecrementActive)
    ensures Counted(es, s) <= Holding(es, s)
  {
    forall id | id in s.requests
      ensures id in Holding(es, s) <==> ReleaseSlot in s.requests[id].deferred
      ensures id in Counted(es, s) <==> DecrementActive in s.requests[id].deferred
      ensures id in Counted(es, s) ==> id in Holding(es, s)
    {
      InvCoversBody(s, id);
      assert TraceOf(es, id) == StoryOf(s, id);
      TraceShowsDebts(es, s, id);
    }
  }

  lemma {:induction false} TraceShowsDebts(es: seq<Event>, s: State, id: nat)
    requires id in s.requests && BodyInv(s.config, s.requests[id]) && TraceOf(es, id) == Story(s.config, s.requests[id])
    ensures id in Holding(es, s) <==> ReleaseSlot in s.requests[id].deferred
    ensures id in Counted(es, s) <==> DecrementActive in s.requests[id].deferred
    ensures id in Counted(es, s) ==> id in Holding(es, s)
  {
    StoryShowsDebt(s.config, s.requests[id], ReleaseSlot);
    StoryShowsDebt(s.config, s.requests[id], DecrementActive);
    DebtsNest(s.config, s.requests[id]);
  }

  /** Capacity, over every run and with panics anywhere: 0 <= active <= slots held <= limit <= 4096; the
      slot channel holds one token for each request between acquire and release, the counter one for each
      between increment and decrement; and both are zero when all requests are done. */
  lemma {:induction false} CapacityIsKept(init: State, es: seq<Event>, s: State)
    requires Initial(init) && Exec(init, es) == Some(s)
    ensures 0 <= s.active <= s.slots <= init.config.maxConnections <= ServerConfig.MAX_CONNECTIONS
    ensures s.slots == |Holding(es, s)| && s.active == |Counted(es, s)| && Counted(es, s) <= Holding(es, s)
    ensures (forall id :: id in s.requests ==> s.requests[id].phase.Done?) ==> s.slots == 0 && s.active == 0
  {
    RunsKeepInv(init, es, s);
    TracesShowDebts(es, s);
    SubsetSize(Counted(es, s), Holding(es, s));
    if forall id :: id in s.requests ==> s.requests[id].phase.Done? {
      forall id | id in s.requests
        ensures s.requests[id].deferred == []
      {
        DebtsNest(s.config, s.requests[id]);
      }
      assert Owing(s.requests, ReleaseSlot) == {} && Owing(s.requests, DecrementActive) == {};
    }
  }

  lemma {:induction false} SubsetSize(a: set<nat>, b: set<nat>)
    requires a <= b
    ensures |a| <= |b|
  {
    assert b == a + (b - a);
  }

  /** A request is refused for capacity only in a state where all slots are held. */
  lemma {:induction false} RefusedOnlyWhenFull(init: State, es: seq<Event>, k: nat)
    requires Initial(init) && Exec(init, es).Some?
    requires k < |es| && es[k].Do? && es[k].move.Refuse?
    ensures Exec(init, es[..k]).Some? &&
            |Holding(es[..k], Exec(init, es[..k]).value)| == init.config.maxConnections
  {
    PrefixRuns(init, es, k);
    CapacityIsKept(init, es[..k], Exec(init, es[..k]).value);
    RunsKeepInv(init, es[..k], Exec(init, es[..k]).value);
  }

  lemma {:induction false} OnlyAt(before: seq<Move>, m: Move, after: seq<Move>)
    requires m !in before && m !in after
    ensures forall j :: 0 <= j < |before + [m] + after| && (before + [m] + after)[j] == m ==> j == |before|
    ensures (before + [m] + after)[..|before|] == before
  {
    var all := before + [m] + after;
    forall j | 0 <= j < |all| && j != |before|
      ensures all[j] in before || all[j] in after
    {
      assert j < |before| ==> all[j] == before[j];
      assert j > |before| ==> all[j] == after[j - |before| - 1];
    }
  }

  lemma {:induction false} ScriptOfSession(config: Config, phase: Phase, tail: seq<Move>, j: nat)
    requires Live(phase) && PhaseInv(config, phase) && StartSession !in tail
    requires j < |Script(config, phase) + tail| && (Script(config, phase) + tail)[j] == StartSession
    ensures Started(phase) && j == |Opening(config, BegunOf(phase))|
    ensures (Script(config, phase) + tail)[..j] == Opening(config, BegunOf(phase))
  {
    ScriptMoves(config, phase, StartSession);
    MemberOfSum(Script(config, phase), tail, StartSession);
    assert (Script(config, phase) + tail)[j] in Script(config, phase) + tail;
    assert Started(phase);
    OpeningMoves(config, BegunOf(phase));
    AfterStartMoves(phase);
    OneStart(Opening(config, BegunOf(phase)), AfterStart(phase), tail);
  }

  lemma {:induction false} OneStart(opening: seq<Move>, after: seq<Move>, tail: seq<Move>)
    requires StartSession !in opening && StartSession !in after && StartSession !in tail
    ensures var all := opening + [StartSession] + after + tail;
      (forall j :: 0 <= j < |all| && all[j] == StartSession ==> j == |opening|) && all[..|opening|] == opening
  {
    assert opening + [StartSession] + after + tail == opening + [StartSession] + (after + tail);
    OnlyAt(opening, StartSession, after + tail);
  }

  lemma {:induction false} StoryOfSession(config: Config, r: Request, j: nat)
    requires RequestInv(config, r) && j < |Story(config, r)| && Story(config, r)[j] == StartSession
    ensures Started(Core(r.phase)) && j == |Opening(config, BegunOf(Core(r.phase)))|
    ensures Story(config, r)[..j] == Opening(config, BegunOf(Core(r.phase)))
  {
    TailShows(r, ReleaseSlot);
    ScriptOfSession(config, Core(r.phase), Tail(r), j);
  }

  /** The session callback runs at most once per request, and only after the transport check, the
      authentication when one is configured, a slot, the upgrade, the count and all observers, in that
      order. */
  lemma {:induction false} SessionsAreAdmitted(init: State, es: seq<Event>, s: State, id: nat, j: nat)
    requires Initial(init) && Exec(init, es) == Some(s)
    requires j < |TraceOf(es, id)| && TraceOf(es, id)[j] == StartSession
    ensures exists secure, loopback ::
              Enter(id, secure, loopback) in es && (secure || (init.config.allowInsecure && loopback))
    ensures exists begun :: |begun| == init.config.observers && TraceOf(es, id)[..j] == Opening(init.config, begun)
    ensures forall i :: 0 <= i < |TraceOf(es, id)| && TraceOf(es, id)[i] == StartSession ==> i == j
  {
    RunsKeepInv(init, es, s);
    var r := s.requests[id];
    assert RequestInv(s.config, r);
    StoryOfSession(s.config, r, j);
    EnteredOnce(init, es, s, id, r.secure, r.loopback);
    assert |BegunOf(Core(r.phase))| == init.config.observers;
    forall i | 0 <= i < |TraceOf(es, id)| && TraceOf(es, id)[i] == StartSession
      ensures i == j
    {
      StoryOfSession(s.config, r, i);
    }
  }

  // ----- observers see nested sessions -----

  /** The calls into observers among some moves. */
  ghost function NoticesOf(moves: seq<Move>): seq<Notice> {
    if moves == [] then []
    else
      NoticesOf(moves[..|moves| - 1]) +
      match moves[|moves| - 1]
      case Begin(observer, gives) => [Began(observer, gives)]
      case RunFinisher(observer, report) => [Ran(observer, report)]
      case _ => []
  }

  lemma {:induction false} NoticesAppend(a: seq<Move>, b: seq<Move>)
    ensures NoticesOf(a + b) == NoticesOf(a) + NoticesOf(b)
  {
    if b == [] {
      assert a + b == a;
    } else {
      assert (a + b)[..|a + b| - 1] == a + b[..|b| - 1];
      NoticesAppend(a, b[..|b| - 1]);
    }
  }

  lemma {:induction false} QuietMoves(moves: seq<Move>)
    requires forall m :: m in moves ==> !m.Begin? && !m.RunFinisher?
    ensures NoticesOf(moves) == []
  {
    if moves != [] { QuietMoves(moves[..|moves| - 1]); }
  }

  lemma {:induction false} NoticesOfBegin(begun: seq<bool>)
    ensures NoticesOf(BeginMoves(begun)) == BeginNotices(begun)
  {
    if begun != [] {
      var init := begun[..|begun| - 1];
      NoticesOfBegin(init);
      assert BeginMoves(begun)[..|begun| - 1] == BeginMoves(init);
      assert BeginNotices(begun) == BeginNotices(init) + [Began(|init|, begun[|init|])];
    }
  }

  lemma {:induction false} NoticesOfFinish(finishers: seq<nat>, report: Report, left: nat)
    requires left <= |finishers|
    ensures NoticesOf(FinishMoves(finishers, report, left)) == FinishNotices(finishers, report)[..|finishers| - left]
    decreases |finishers| - left
  {
    var moves, notices := FinishMoves(finishers, report, left), FinishNotices(finishers, report);
    if left < |finishers| {
      NoticesOfFinish(finishers, report, left + 1);
      assert moves[..|moves| - 1] == FinishMoves(finishers, report, left + 1);
      var n := |finishers| - left;
      assert notices[..n] == notices[..n - 1] + [notices[n - 1]];
    }
  }

  /** What a served request does between the increment of the counter and its decrement. */
  ghost function Inside(facts: Facts, forced: bool, report: Report): seq<Move> {
    BeginMoves(facts.begun) + ([StartSession] + Ending(facts, forced) + [StartFinish(report)]) +
    FinishMoves(Finishers(facts.begun), report, 0) + [Return]
  }

  lemma {:induction false} NoticesOfFour(a: seq<Move>, b: seq<Move>, c: seq<Move>, d: seq<Move>)
    ensures NoticesOf(a + b + c + d) == NoticesOf(a) + NoticesOf(b) + NoticesOf(c) + NoticesOf(d)
  {
    NoticesAppend(a, b);
    NoticesAppend(a + b, c);
    NoticesAppend(a + b + c, d);
  }

  lemma {:induction false} QuietMiddle(facts: Facts, forced: bool, report: Report)
    ensures NoticesOf([StartSession] + Ending(facts, forced) + [StartFinish(report)]) == []
    ensures NoticesOf([Return]) == []
  {
    var middle := [StartSession] + Ending(facts, forced) + [StartFinish(report)];
    assert forall m :: m in middle ==> !m.Begin? && !m.RunFinisher?;
    QuietMoves(middle);
    QuietMoves([Return]);
  }

  lemma {:induction false} NoticesOfAllFinishers(finishers: seq<nat>, report: Report)
    ensures NoticesOf(FinishMoves(finishers, report, 0)) == FinishNotices(finishers, report)
  {
    NoticesOfFinish(finishers, report, 0);
    assert FinishNotices(finishers, report)[..|finishers|] == FinishNotices(finishers, report);
  }

  lemma {:induction false} NoticesInside(facts: Facts, forced: bool, report: Report)
    ensures NoticesOf(Inside(facts, forced, report)) ==
              BeginNotices(facts.begun) + FinishNotices(Finishers(facts.begun), report)
  {
    var finishers := Finishers(facts.begun);
    var begin, finish := BeginMoves(facts.begun), FinishMoves(finishers, report, 0);
    var middle := [StartSession] + Ending(facts, forced) + [StartFinish(report)];
    NoticesOfFour(begin, middle, finish, [Return]);
    NoticesOfBegin(facts.begun);
    QuietMiddle(facts, forced, report);
    NoticesOfAllFinishers(finishers, report);
    assert NoticesOf(Inside(facts, forced, report)) ==
           BeginNotices(facts.begun) + [] + FinishNotices(finishers, report) + [];
  }

  lemma {:induction false} Regroup(checks: seq<Move>, begin: seq<Move>, ending: seq<Move>, start: Move, finish: seq<Move>)
    ensures checks + [Acquire] + [Accept(true)] + [Count] + begin + [StartSession] + (ending + [start] + finish) + [Return]
         == checks + [Acquire, Accept(true), Count] + (begin + ([StartSession] + ending + [start]) + finish + [Return])
  {
  }

  lemma {:induction false} FinishedScript(config: Config, facts: Facts, forced: bool, report: Report)
    requires |facts.begun| == config.observers
    ensures Script(config, Finishing(facts, forced, report, 0)) + [Return] ==
              Checks(config) + [Acquire, Accept(true), Count] + Inside(facts, forced, report)
  {
    Regroup(Checks(config), BeginMoves(facts.begun), Ending(facts, forced), StartFinish(report),
            FinishMoves(Finishers(facts.begun), report, 0));
  }

  lemma {:induction false} ServedStory(config: Config, r: Request)
    requires BodyInv(config, r) && ResponseInv(config, r) && r.phase.Done? && r.phase.response.Completed?
    ensures Story(config, r) ==
              Checks(config) + [Acquire, Accept(true), Count] +
              Inside(r.phase.ended.facts, r.phase.ended.forced, r.phase.ended.report) +
              [RunDeferred(DecrementActive), RunDeferred(ReleaseSlot), Exit]
  {
    var ended := r.phase.ended;
    FinishedScript(config, ended.facts, ended.forced, ended.report);
    WayOut(r);
    assert Script(config, ended) + ([Return] + [RunDeferred(DecrementActive), RunDeferred(ReleaseSlot), Exit]) ==
           (Script(config, ended) + [Return]) + [RunDeferred(DecrementActive), RunDeferred(ReleaseSlot), Exit];
  }

  lemma {:induction false} WayOut(r: Request)
    requires r.phase.Done? && Registered(r.phase.ended) == [ReleaseSlot, DecrementActive]
    ensures Tail(r) == [r.phase.last] + [RunDeferred(DecrementActive), RunDeferred(ReleaseSlot), Exit]
  {
    assert UnwindMoves(Registered(r.phase.ended), 0) == [RunDeferred(DecrementActive), RunDeferred(ReleaseSlot)];
  }

  lemma {:induction false} NoticesAround(config: Config, facts: Facts, forced: bool, report: Report)
    ensures var inside := Inside(facts, forced, report);
      NoticesOf(Checks(config) + [Acquire, Accept(true), Count] + inside +
                [RunDeferred(DecrementActive), RunDeferred(ReleaseSlot), Exit]) == NoticesOf(inside)
  {
    var before := Checks(config) + [Acquire, Accept(true), Count];
    var after := [RunDeferred(DecrementActive), RunDeferred(ReleaseSlot), Exit];
    QuietMoves(before);
    QuietMoves(after);
    NoticesAppend(before, Inside(facts, forced, report));
    NoticesAppend(before + Inside(facts, forced, report), after);
  }

  /** A served request's moves: admission, `inside` between the increment and the decrement, and the way
      out; its observer calls are those of `begun`, all inside, and nest. */
  ghost predicate Bracketed(config: Config, trace: seq<Move>, report: Report, begun: seq<bool>, inside: seq<Move>) {
    |begun| == config.observers &&
    trace == Checks(config) + [Acquire, Accept(true), Count] + inside +
             [RunDeferred(DecrementActive), RunDeferred(ReleaseSlot), Exit] &&
    NoticesOf(trace) == NoticesOf(inside) == BeginNotices(begun) + FinishNotices(Finishers(begun), report) &&
    Nest(NoticesOf(trace), []) == Some([])
  }

  lemma {:induction false} ServedStoryIsBracketed(config: Config, r: Request)
    requires BodyInv(config, r) && ResponseInv(config, r) && r.phase.Done? && r.phase.response.Completed?
    ensures exists begun, inside :: Bracketed(config, Story(config, r), r.phase.response.report, begun, inside)
  {
    var facts, forced, report := r.phase.ended.facts, r.phase.ended.forced, r.phase.ended.report;
    ServedStory(config, r);
    NoticesAround(config, facts, forced, report);
    NoticesInside(facts, forced, report);
    SessionsNest(facts.begun, report);
    assert Bracketed(config, Story(config, r), report, facts.begun, Inside(facts, forced, report));
  }

  /** A request served without a panic: its observer calls nest, all share one report, and all fall
      between the increment of the active counter and its decrement. */
  lemma {:induction false} ServedSessionsNest(init: State, es: seq<Event>, s: State, id: nat)
    requires Initial(init) && Exec(init, es) == Some(s)
    requires id in s.requests && s.requests[id].phase.Done? && s.requests[id].phase.response.Completed?
    ensures exists begun, inside ::
              Bracketed(init.config, TraceOf(es, id), s.requests[id].phase.response.report, begun, inside)
  {
    ReachedRequest(init, es, s, id);
    ServedStoryIsBracketed(s.config, s.requests[id]);
  }

  lemma {:induction false} TailOfDone(r: Request, m: Move)
    requires DeferredInv(r) && r.phase.Done?
    ensures r.phase.last in Tail(r)
    ensures m in Tail(r) && Ends(m) ==> m == r.phase.last
  {
    UnwindShows(Registered(r.phase.ended), 0, ReleaseSlot);
    assert Tail(r)[0] == r.phase.last;
  }

  lemma {:induction false} EndingsAreInTheTail(config: Config, phase: Phase, tail: seq<Move>, m: Move)
    requires Live(phase) && PhaseInv(config, phase) && Ends(m) && !m.CheckTransport?
    ensures m in Script(config, phase) + tail <==> m in tail
  {
    ScriptMoves(config, phase, m);
    MemberOfSum(Script(config, phase), tail, m);
  }

  lemma {:induction false} MemberOfSum(a: seq<Move>, b: seq<Move>, m: Move)
    ensures m in a + b <==> m in a || m in b
  {
  }

  lemma {:induction false} StoryExplainsResponse(config: Config, r: Request, m: Move)
    requires RequestInv(config, r) && r.phase.Done? && Ends(m) && !m.CheckTransport?
    ensures m in Story(config, r) <==> m == r.phase.last
  {
    EndingsAreInTheTail(config, Core(r.phase), Tail(r), m);
    TailOfDone(r, m);
  }

  /** Why a request got the answer it got. */
  lemma {:induction false} ResponsesSayWhy(init: State, es: seq<Event>, s: State, id: nat)
    requires Initial(init) && Exec(init, es) == Some(s)
    requires id in s.requests && s.requests[id].phase.Done?
    ensures var response, trace := s.requests[id].phase.response, TraceOf(es, id);
      (exists secure, loopback :: Enter(id, secure, loopback) in es) &&
      (forall secure, loopback :: Enter(id, secure, loopback) in es ==>
         (response.UpgradeRequired? <==> !secure && (!init.config.allowInsecure || !loopback))) &&
      (response.Unauthorized? <==> Authenticate(false) in trace) &&
      (response.CapacityExhausted? <==> Refuse in trace) &&
      (response.AcceptFailed? <==> Accept(false) in trace) &&
      (response.Panicked? <==> Panic in trace) &&
      (response.Completed? <==> Return in trace)
  {
    RunsKeepInv(init, es, s);
    var config, r := s.config, s.requests[id];
    StoryExplainsResponse(config, r, Authenticate(false));
    StoryExplainsResponse(config, r, Refuse);
    StoryExplainsResponse(config, r, Accept(false));
    StoryExplainsResponse(config, r, Panic);
    StoryExplainsResponse(config, r, Return);
    LastMoveTellsResponse(config, r);
    forall secure, loopback
      ensures Enter(id, secure, loopback) in es <==> r.secure == secure && r.loopback == loopback
    {
      EnteredOnce(init, es, s, id, secure, loopback);
    }
    assert Enter(id, r.secure, r.loopback) in es;
  }

  lemma {:induction false} LastMoveTellsResponse(config: Config, r: Request)
    requires RequestInv(config, r) && r.phase.Done?
    ensures var response, last := r.phase.response, r.phase.last;
      Ends(last) &&
      (response.UpgradeRequired? <==> !TransportOk(config, r)) &&
      (response.UpgradeRequired? <==> last.CheckTransport?) &&
      (response.Unauthorized? <==> last == Authenticate(false)) &&
      (response.CapacityExhausted? <==> last == Refuse) &&
      (response.AcceptFailed? <==> last == Accept(false)) &&
      (response.Panicked? <==> last == Panic) &&
      (response.Completed? <==> last == Return)
  {
  }

  // ----- what observers are owed, panics included -----

  /** The finishers that observers have returned and that have not run to their end. */
  function OpenFinishers(phase: Phase): seq<nat> {
    var all := Finishers(BegunOf(phase));
    if phase.Finishing? && phase.left <= |all| then all[..phase.left] else all
  }

  /** Some moves of a request tell what its observers have returned and what they are still owed. */
  ghost predicate TellsObservers(moves: seq<Move>, phase: Phase) {
    Nest(NoticesOf(moves), []) == Some(OpenFinishers(phase)) && TellsBegun(moves, BegunOf(phase))
  }

  ghost predicate TellsBegun(moves: seq<Move>, begun: seq<bool>) {
    forall i: nat, gives :: Begin(i, gives) in moves <==> i < |begun| && begun[i] == gives
  }

  lemma {:induction false} BegunGrows(moves: seq<Move>, m: Move, before: seq<bool>, after: seq<bool>)
    requires TellsBegun(moves, before)
    requires if m.Begin? then after == before + [m.gives] && m.observer == |before| else after == before
    ensures TellsBegun(moves + [m], after)
  {
    forall i: nat, gives
      ensures Begin(i, gives) in moves + [m] <==> i < |after| && after[i] == gives
    {
      assert Begin(i, gives) in moves + [m] <==> Begin(i, gives) in moves || Begin(i, gives) == m;
    }
  }

  /** A move keeps what observers have returned, unless it begins one more. */
  lemma {:induction false} MoveKeepsBegun(config: Config, r: Request, m: Move, next: Phase)
    requires NextPhase(config, r, m) == Some(next)
    ensures if m.Begin? then r.phase.Beginning? && next == Beginning(r.phase.begun + [m.gives]) &&
                             m.observer == |r.phase.begun|
            else BegunOf(Core(next)) == BegunOf(Core(r.phase))
  {
  }

  lemma {:induction false} MoveKeepsFinishing(config: Config, r: Request, m: Move, next: Phase)
    requires NextPhase(config, r, m) == Some(next) && !m.StartFinish? && !m.RunFinisher?
    ensures Core(next).Finishing? <==> Core(r.phase).Finishing?
    ensures Core(next).Finishing? ==> Core(next).left == Core(r.phase).left
  {
  }

  /** A move keeps what observers are owed, unless it begins one more or runs a finisher. */
  lemma {:induction false} MoveKeepsOpen(config: Config, r: Request, m: Move, next: Phase)
    requires BodyInv(config, r) && NextPhase(config, r, m) == Some(next) && !m.Begin?
    ensures if m.RunFinisher? then OpenFinishers(Core(r.phase)) == OpenFinishers(Core(next)) + [m.observer]
            else OpenFinishers(Core(next)) == OpenFinishers(Core(r.phase))
  {
    MoveKeepsBegun(config, r, m, next);
    var f := Finishers(BegunOf(Core(r.phase)));
    if m.StartFinish? {
      assert f[..|f|] == f;
    } else if m.RunFinisher? {
      assert f[..r.phase.left] == f[..r.phase.left - 1] + [f[r.phase.left - 1]];
    } else {
      MoveKeepsFinishing(config, r, m, next);
    }
  }

  lemma {:induction false} OneMoreNotice(moves: seq<Move>, m: Move)
    ensures NoticesOf(moves + [m]) == NoticesOf(moves) + NoticesOf([m])
    ensures NoticesOf([m]) == (match m
                               case Begin(observer, gives) => [Began(observer, gives)]
                               case RunFinisher(observer, report) => [Ran(observer, report)]
                               case _ => [])
  {
    NoticesAppend(moves, [m]);
    assert [m][..0] == [];
  }

  lemma {:induction false} NestOne(notice: Notice, open: seq<nat>)
    ensures Nest([notice], open) ==
              match notice
              case Began(observer, gives) => Some(if gives then open + [observer] else open)
              case Ran(observer, _) =>
                if open != [] && open[|open| - 1] == observer then Some(open[..|open| - 1]) else None
  {
    assert [notice][1..] == [];
  }

  lemma {:induction false} FinishersGrow(begun: seq<bool>, gives: bool)
    ensures Finishers(begun + [gives]) == if gives then Finishers(begun) + [|begun|] else Finishers(begun)
  {
    assert (begun + [gives])[..|begun|] == begun;
  }

  lemma {:induction false} BeginKeepsNesting(begun: seq<bool>, m: Move, moves: seq<Move>)
    requires m.Begin? && m.observer == |begun|
    requires Nest(NoticesOf(moves), []) == Some(OpenFinishers(Beginning(begun)))
    ensures Nest(NoticesOf(moves + [m]), []) == Some(OpenFinishers(Beginning(begun + [m.gives])))
  {
    OneMoreNotice(moves, m);
    NestAppend(NoticesOf(moves), NoticesOf([m]), []);
    FinishersGrow(begun, m.gives);
    NestOne(Began(m.observer, m.gives), Finishers(begun));
  }

  lemma {:induction false} OtherMovesKeepNesting(m: Move, moves: seq<Move>, before: seq<nat>, after: seq<nat>)
    requires Nest(NoticesOf(moves), []) == Some(before) && !m.Begin?
    requires if m.RunFinisher? then before == after + [m.observer] else after == before
    ensures Nest(NoticesOf(moves + [m]), []) == Some(after)
  {
    OneMoreNotice(moves, m);
    if m.RunFinisher? {
      NestAppend(NoticesOf(moves), NoticesOf([m]), []);
      NestOne(Ran(m.observer, m.given), before);
      assert before[..|after|] == after;
    } else {
      assert NoticesOf(moves) + [] == NoticesOf(moves);
    }
  }

  lemma {:induction false} MoveKeepsTelling(config: Config, r: Request, m: Move, next: Phase, moves: seq<Move>)
    requires BodyInv(config, r) && NextPhase(config, r, m) == Some(next)
    requires TellsObservers(moves, Core(r.phase))
    ensures TellsObservers(moves + [m], Core(next))
  {
    MoveKeepsBegun(config, r, m, next);
    BegunGrows(moves, m, BegunOf(Core(r.phase)), BegunOf(Core(next)));
    if m.Begin? {
      BeginKeepsNesting(r.phase.begun, m, moves);
    } else {
      MoveKeepsOpen(config, r, m, next);
      OtherMovesKeepNesting(m, moves, OpenFinishers(Core(r.phase)), OpenFinishers(Core(next)));
    }
  }

  /** A step in the life of one request: it enters, it moves by its own code, or it stays where it is. */
  lemma {:induction false} StepMovesPhase(s: State, e: Event, t: State, id: nat)
    requires Step(s, e) == Some(t) && id in t.requests
    ensures id !in s.requests ==> t.requests[id].phase == Arrived && !e.Do?
    ensures id in s.requests ==>
              if e.Do? && e.id == id && !e.move.Conn?
              then NextPhase(s.config, s.requests[id], e.move) == Some(t.requests[id].phase)
              else t.requests[id].phase == s.requests[id].phase
  {
    StepMovesOne(s, e, t);
  }

  lemma {:induction false} StepKeepsTelling(es: seq<Event>, s: State, t: State, id: nat)
    requires es != [] && Step(s, es[|es| - 1]) == Some(t) && id in t.requests
    requires id in s.requests ==> BodyInv(s.config, s.requests[id])
    requires id in s.requests ==> TellsObservers(TraceOf(es[..|es| - 1], id), Core(s.requests[id].phase))
    requires id !in s.requests ==> TraceOf(es[..|es| - 1], id) == []
    ensures TellsObservers(TraceOf(es, id), Core(t.requests[id].phase))
  {
    var before, e := TraceOf(es[..|es| - 1], id), es[|es| - 1];
    StepMovesPhase(s, e, t, id);
    if id !in s.requests {
      NothingTold();
    } else if e.Do? && e.id == id && !e.move.Conn? {
      MoveKeepsTelling(s.config, s.requests[id], e.move, t.requests[id].phase, before);
    } else {
      assert TraceOf(es, id) == before;
    }
  }

  lemma {:induction false} NothingTold()
    ensures TellsObservers([], Arrived)
  {
    assert BegunOf(Arrived) == [] && NoticesOf([]) == [];
  }

  lemma {:induction false} TraceOfReached(init: State, es: seq<Event>, s: State, id: nat)
    requires Initial(init) && Exec(init, es) == Some(s)
    ensures id in s.requests ==> BodyInv(s.config, s.requests[id])
    ensures id !in s.requests ==> TraceOf(es, id) == []
  {
    ReachedRequest(init, es, s, id);
  }

  /** At every moment of every run, whatever panics, a request's observer calls nest, and open are exactly
      the finishers that observers have returned and that have not run. */
  lemma {:induction false} SessionsStayNested(init: State, es: seq<Event>, s: State, id: nat)
    requires Initial(init) && Exec(init, es) == Some(s) && id in s.requests
    ensures TellsObservers(TraceOf(es, id), Core(s.requests[id].phase))
  {
    if es != [] {
      var before := es[..|es| - 1];
      var t := Exec(init, before).value;
      TraceOfReached(init, before, t, id);
      if id in t.requests { SessionsStayNested(init, before, t, id); }
      StepKeepsTelling(es, t, s, id);
    }
  }

  lemma {:induction false} OpenWhenDone(config: Config, r: Request)
    requires BodyInv(config, r) && ResponseInv(config, r) && r.phase.Done?
    ensures OpenFinishers(Core(r.phase)) == [] <==> r.phase.response.Completed? || Finishers(BegunOf(Core(r.phase))) == []
  {
  }

  /** The exact price of a panic. A request that is done has left no finisher unrun if and only if it was
      served to its end or no observer had returned a finisher. */
  lemma {:induction false} FinishersLeftBehind(init: State, es: seq<Event>, s: State, id: nat)
    requires Initial(init) && Exec(init, es) == Some(s)
    requires id in s.requests && s.requests[id].phase.Done?
    ensures Nest(NoticesOf(TraceOf(es, id)), []) == Some([]) <==>
              s.requests[id].phase.response.Completed? || forall i :: Begin(i, true) !in TraceOf(es, id)
  {
    ReachedRequest(init, es, s, id);
    SessionsStayNested(init, es, s, id);
    var core := Core(s.requests[id].phase);
    OpenWhenDone(s.config, s.requests[id]);
    FinishersAreTheGivers(BegunOf(core));
    if Finishers(BegunOf(core)) != [] {
      var i := Finishers(BegunOf(core))[0];
      assert i in Finishers(BegunOf(core));
      assert Begin(i, true) in TraceOf(es, id);
    }
  }

  /** A session ended by a panic has been closed by ServeHTTP if the panic came from a finisher, and not
      at all if it came from an observer or the callback; its slot and count are given back all the same. */
  lemma {:induction false} PanickedSessions(init: State, es: seq<Event>, s: State, id: nat)
    requires Initial(init) && Exec(init, es) == Some(s)
    requires id in s.requests && s.requests[id].phase.Done? && Panic in TraceOf(es, id)
    ensures LeftByPanic(s.requests[id], TraceOf(es, id))
  {
    ReachedRequest(init, es, s, id);
    ResponsesSayWhy(init, es, s, id);
    PanickedStory(s.config, s.requests[id]);
  }

  /** How a panic leaves a request that made the given moves. */
  ghost predicate LeftByPanic(r: Request, moves: seq<Move>) {
    (r.conn.Some? <==> Count in moves) &&
    (r.conn.Some? ==>
       (HasReturned(r.conn, SERVER_CLOSE) <==> Core(r.phase).Finishing?) &&
       (SERVER_CLOSE in r.conn.value.callers || SERVER_FORCE in r.conn.value.callers ==> Core(r.phase).Finishing?) &&
       RunDeferred(DecrementActive) in moves && RunDeferred(ReleaseSlot) in moves)
  }

  lemma {:induction false} PanickedStory(config: Config, r: Request)
    requires RequestInv(config, r) && r.phase.Done? && r.phase.response.Panicked?
    ensures LeftByPanic(r, Story(config, r))
  {
    StoryShowsDebt(config, r, DecrementActive);
    StoryShowsDebt(config, r, ReleaseSlot);
    PanicsAreCounted(config, r);
    if r.conn.Some? { PanicsAndClose(config, r); }
  }

  lemma {:induction false} PanicsAndClose(config: Config, r: Request)
    requires RequestInv(config, r) && r.phase.Done? && r.phase.response.Panicked? && r.conn.Some?
    ensures HasReturned(r.conn, SERVER_CLOSE) <==> Core(r.phase).Finishing?
    ensures SERVER_CLOSE in r.conn.value.callers || SERVER_FORCE in r.conn.value.callers ==> Core(r.phase).Finishing?
  {
    assert CallsInv(Core(r.phase), r.conn.value);
  }

  lemma {:induction false} PanicsAreCounted(config: Config, r: Request)
    requires RequestInv(config, r) && r.phase.Done? && r.phase.response.Panicked?
    ensures r.conn.Some? <==> Count in Story(config, r)
    ensures r.conn.Some? ==> Acquire in Story(config, r)
  {
    ScriptShowsDebt(config, Core(r.phase), DecrementActive);
    ScriptShowsDebt(config, Core(r.phase), ReleaseSlot);
    TailShowsDebt(r, DecrementActive);
    MemberOfSum(Script(config, Core(r.phase)), Tail(r), Count);
    MemberOfSum(Script(config, Core(r.phase)), Tail(r), Acquire);
  }

  // ----- outcomes -----

  /** The handler's error, if any, is an ordinary close. */
  ghost predicate EndedOrdinarily(err: Option<Err>) {
    err.None? || OrdinaryClose(FirstPeer(err.value)) || OrdinaryClose(FirstNative(err.value))
  }

  /** The status a session is closed with. */
  ghost function CloseStatusFor(facts: Facts): int {
    if facts.cause.Some? then 1001 else if EndedOrdinarily(facts.err) then 1000 else 1011
  }

  /** What ServeHTTP's two closes came to: the first was made with the status that goes with the facts and
      not turned down; the second was made exactly if the first failed; `ok` says that one succeeded. */
  ghost predicate ClosedBy(conn: C.State, facts: Facts, ok: bool) {
    SERVER_CLOSE in conn.callers && conn.callers[SERVER_CLOSE].phase.Returned? &&
    conn.callers[SERVER_CLOSE].call == C.CloseCall(Some(CLOSE_CONTEXT), CloseStatusFor(facts), "") &&
    conn.callers[SERVER_CLOSE].phase.exit != C.Rejected &&
    (conn.callers[SERVER_CLOSE].phase.exit == C.AlreadyCanceled || conn.worker.Finished?) &&
    (conn.callers[SERVER_CLOSE].phase.result.Some? <==> SERVER_FORCE in conn.callers) &&
    (SERVER_FORCE in conn.callers ==>
       conn.callers[SERVER_FORCE].call.ForceCall? && conn.callers[SERVER_FORCE].phase.Returned?) &&
    (ok <==> conn.callers[SERVER_CLOSE].phase.result.None? || conn.callers[SERVER_FORCE].phase.result.None?)
  }

  lemma {:induction false} FinishingStory(config: Config, r: Request)
    requires RequestInv(config, r) && Core(r.phase).Finishing?
    ensures var core := Core(r.phase);
      SessionReturns(core.facts.err) in Story(config, r) && Classify(core.facts.cause) in Story(config, r) &&
      StartFinish(core.report) in Story(config, r)
  {
    var core := Core(r.phase);
    var after := AfterStart(core);
    assert after[0] == SessionReturns(core.facts.err) && after[1] == Classify(core.facts.cause);
    assert after[|Ending(core.facts, core.forced)|] == StartFinish(core.report);
    assert forall m :: m in after ==> m in Story(config, r);
  }

  lemma {:induction false} SettledClose(conn: C.State, facts: Facts, outcome: Outcome, forced: bool)
    requires C.Inv(conn) && conn.connected && Settled(conn, facts, outcome, forced)
    ensures ClosedBy(conn, facts, OneCloseOk(conn))
    ensures outcome == Normal <==> facts.cause.None? && EndedOrdinarily(facts.err) && OneCloseOk(conn)
    ensures outcome == Canceled <==> facts.cause.Some? && OneCloseOk(conn)
  {
    C.ReturnedCloseFacts(conn, SERVER_CLOSE);
    OutcomeCases(facts, ResultOf(Some(conn), SERVER_CLOSE), ResultOf(Some(conn), SERVER_FORCE));
  }

  ghost predicate OneCloseOk(conn: C.State) {
    ResultOf(Some(conn), SERVER_CLOSE).None? || ResultOf(Some(conn), SERVER_FORCE).None?
  }

  /** The reported outcome of every session that gets as far as its finishers, and how its close went:
      Normal exactly when the request context was live, the handler ended ordinarily and one of the two
      closes succeeded; the Close call carries the status that goes with it and is never turned down for
      its arguments. */
  lemma {:induction false} ReportedOutcome(init: State, es: seq<Event>, s: State, id: nat)
    requires Initial(init) && Exec(init, es) == Some(s)
    requires id in s.requests && Core(s.requests[id].phase).Finishing?
    ensures var core, conn := Core(s.requests[id].phase), s.requests[id].conn;
      var facts, outcome := core.facts, core.report.outcome;
      SessionReturns(facts.err) in TraceOf(es, id) && Classify(facts.cause) in TraceOf(es, id) &&
      StartFinish(core.report) in TraceOf(es, id) &&
      conn.Some? &&
      exists ok :: ClosedBy(conn.value, facts, ok) &&
                   (outcome == Normal <==> facts.cause.None? && EndedOrdinarily(facts.err) && ok) &&
                   (outcome == Canceled <==> facts.cause.Some? && ok)
  {
    ReachedRequest(init, es, s, id);
    var r := s.requests[id];
    var core := Core(r.phase);
    FinishingStory(s.config, r);
    assert ConnInv(core, r.conn.value);
    SettledClose(r.conn.value, core.facts, core.report.outcome, core.forced);
  }

  lemma {:induction false} OutcomeCases(facts: Facts, closeResult: Option<Err>, forceResult: Option<Err>)
    ensures var outcome, oneCloseOk := FinalOutcome(facts, closeResult, forceResult), closeResult.None? || forceResult.None?;
      (outcome == Normal <==> facts.cause.None? && EndedOrdinarily(facts.err) && oneCloseOk) &&
      (outcome == Canceled <==> facts.cause.Some? && oneCloseOk) &&
      ServerOutcome(facts.cause, facts.err).1 == CloseStatusFor(facts)
  {
  }

  // ----- every session's connection lives by the close protocol -----

  /** What a run does to the connection of one request. */
  ghost function SessionEvents(init: State, es: seq<Event>, id: nat): seq<C.Event> {
    if es == [] then []
    else
      var before, e := es[..|es| - 1], es[|es| - 1];
      SessionEvents(init, before, id) +
      (if Exec(init, before).Some? then StepEvents(Exec(init, before).value, e, id) else [])
  }

  /** What one step does to it. */
  function StepEvents(s: State, e: Event, id: nat): seq<C.Event> {
    if e.Do? && e.id == id && id in s.requests && ConnEvent(s.requests[id], e.move).Some? then
      [ConnEvent(s.requests[id], e.move).value]
    else []
  }

  /** The connection so far; fresh if there is none yet. */
  ghost function ConnOf(s: State, id: nat): C.State {
    if id in s.requests && s.requests[id].conn.Some? then s.requests[id].conn.value else FRESH
  }

  lemma {:induction false} MoveRunsTheProtocol(config: Config, r: Request, m: Move, next: Request)
    requires (r.phase.Upgrading? ==> r.conn.None?) && NextRequest(config, r, m) == Some(next)
    ensures ConnEvent(r, m).None? ==> next.conn == r.conn || (r.conn.None? && next.conn == Some(FRESH))
    ensures ConnEvent(r, m).Some? ==> r.conn.Some? && next.conn == C.Step(r.conn.value, ConnEvent(r, m).value) &&
                                      next.conn.Some?
  {
  }

  lemma {:induction false} StepRunsTheProtocol(s: State, e: Event, t: State, id: nat, past: seq<C.Event>)
    requires Step(s, e) == Some(t) && (id in s.requests && s.requests[id].phase.Upgrading? ==> s.requests[id].conn.None?)
    requires C.Exec(FRESH, past) == Some(ConnOf(s, id))
    ensures C.Exec(FRESH, past + StepEvents(s, e, id)) == Some(ConnOf(t, id))
  {
    StepMovesOne(s, e, t);
    if e.Do? && e.id == id {
      MoveRunsTheProtocol(s.config, s.requests[id], e.move, t.requests[id]);
    }
    if StepEvents(s, e, id) == [] {
      assert past + [] == past;
    } else {
      C.ExecOneMore(FRESH, past, ConnEvent(s.requests[id], e.move).value);
    }
  }

  lemma {:induction false} NoConnYet(s: State, id: nat)
    requires Inv(s) && id in s.requests && s.requests[id].phase.Upgrading?
    ensures s.requests[id].conn.None?
  {
  }

  /** In every run, what happens to a session's connection is a run of the close protocol, so all that is
      proved there holds of every session. */
  lemma {:induction false} SessionsRunTheProtocol(init: State, es: seq<Event>, s: State, id: nat)
    requires Initial(init) && Exec(init, es) == Some(s)
    ensures C.Initial(FRESH) && C.Exec(FRESH, SessionEvents(init, es, id)) == Some(ConnOf(s, id))
  {
    if es != [] {
      var before := es[..|es| - 1];
      var t := Exec(init, before).value;
      SessionsRunTheProtocol(init, before, t, id);
      RunsKeepInv(init, before, t);
      if id in t.requests && t.requests[id].phase.Upgrading? { NoConnYet(t, id); }
      StepRunsTheProtocol(t, es[|es| - 1], s, id, SessionEvents(init, before, id));
    }
  }

  /** How the two closes of a session went, as its connection's events tell: the first returned nil only if
      the library saw nil or a closed socket; the second nil exactly if the forced close did. */
  lemma {:induction false} ClosesTellTheirResults(init: State, es: seq<Event>, s: State, id: nat, forced: Option<Err>)
    requires Initial(init) && Exec(init, es) == Some(s)
    requires id in s.requests && Core(s.requests[id].phase).Finishing?
    ensures s.requests[id].conn.Some?
    ensures var conn := s.requests[id].conn.value;
      var events := SessionEvents(init, es, id);
      SERVER_CLOSE in conn.callers && conn.callers[SERVER_CLOSE].phase.Returned? &&
      (conn.callers[SERVER_CLOSE].phase.result.None? ==>
         conn.worker.Finished? && C.HandshakeReturns(conn.worker.saw) in events && C.HandshakeGives(conn.worker.saw, None)) &&
      (conn.callers[SERVER_CLOSE].phase.result.Some? ==>
         SERVER_FORCE in conn.callers && conn.callers[SERVER_FORCE].phase.Returned? &&
         (C.ForceReturns(SERVER_FORCE, forced) in events <==>
            conn.callers[SERVER_FORCE].phase.result ==
              if forced.Some? then Some(Wrap("force close WebSocket", forced.value)) else None))
  {
    ReportedOutcome(init, es, s, id);
    SessionsRunTheProtocol(init, es, s, id);
    var conn, events := s.requests[id].conn.value, SessionEvents(init, es, id);
    C.CloseResults(FRESH, events, conn, SERVER_CLOSE);
    if conn.callers[SERVER_CLOSE].phase.result.Some? { C.ForcedResults(FRESH, events, conn, SERVER_FORCE, forced); }
  }

  // ----- no request gets stuck -----

  /** The move that is due for a request; callbacks are taken to return. */
  ghost function NextMove(config: Config, full: bool, r: Request): Move {
    match r.phase
    case Arrived => CheckTransport
    case Authenticating => Authenticate(true)
    case Admitting => if full then Refuse else Acquire
    case Upgrading => Accept(true)
    case Counting => Count
    case Beginning(begun) => if |begun| < config.observers then Begin(|begun|, true) else StartSession
    case InSession(_) => SessionReturns(None)
    case Classifying(_, _) => Classify(None)
    case Closing(_, _) => if HasReturned(r.conn, SERVER_CLOSE) then CloseReturns else ConnMove(r, SERVER_CLOSE)
    case ForcingClosed(_, _) => if HasReturned(r.conn, SERVER_FORCE) then ForceReturns else ConnMove(r, SERVER_FORCE)
    case Reporting(_, outcome, _) => StartFinish(Report(outcome, 0))
    case Finishing(facts, _, report, left) =>
      if 0 < left <= |Finishers(facts.begun)| then RunFinisher(Finishers(facts.begun)[left - 1], report) else Return
    case _ => if r.deferred != [] then RunDeferred(r.deferred[|r.deferred| - 1]) else Exit
  }

  ghost function ConnMove(r: Request, id: nat): Move {
    if r.conn.Some? && id in r.conn.value.callers then Conn(C.NextStep(r.conn.value, id)) else Exit
  }

  lemma {:induction false} PhaseCanMove(config: Config, full: bool, r: Request)
    requires PhaseInv(config, Core(r.phase)) && !r.phase.Done?
    requires r.phase.Closing? ==> r.conn.Some? && SERVER_CLOSE in r.conn.value.callers
    requires r.phase.ForcingClosed? ==> r.conn.Some? && SERVER_FORCE in r.conn.value.callers
    ensures NextPhase(config, r, NextMove(config, full, r)).Some?
  {
  }

  lemma {:induction false} ConnCanMove(config: Config, full: bool, r: Request)
    requires RequestInv(config, r)
    ensures NextConn(r, NextMove(config, full, r)).Some?
  {
    if r.phase.Closing? && !HasReturned(r.conn, SERVER_CLOSE) {
      C.NoDeadlock(r.conn.value, SERVER_CLOSE);
    } else if r.phase.ForcingClosed? && !HasReturned(r.conn, SERVER_FORCE) {
      C.NoDeadlock(r.conn.value, SERVER_FORCE);
    }
  }

  lemma {:induction false} MoveIsPossible(s: State, id: nat)
    requires s.slots == |Owing(s.requests, ReleaseSlot)| && id in s.requests
    ensures Possible(s, NextMove(s.config, s.slots >= s.config.maxConnections, s.requests[id]))
  {
    if ReleaseSlot in s.requests[id].deferred { assert id in Owing(s.requests, ReleaseSlot); }
  }

  /** In every reachable state, every request that is not done can move; in particular the receive that
      gives a slot back never blocks. */
  lemma {:induction false} NoRequestIsStuck(init: State, es: seq<Event>, s: State, id: nat)
    requires Initial(init) && Exec(init, es) == Some(s)
    requires id in s.requests && !s.requests[id].phase.Done?
    ensures Step(s, Do(id, NextMove(s.config, s.slots >= s.config.maxConnections, s.requests[id]))).Some?
  {
    RunsKeepInv(init, es, s);
    RequestCanMove(s.config, s.slots >= s.config.maxConnections, s.requests[id]);
    MoveIsPossible(s, id);
  }

  lemma {:induction false} RequestCanMove(config: Config, full: bool, r: Request)
    requires RequestInv(config, r) && !r.phase.Done?
    ensures NextRequest(config, r, NextMove(config, full, r)).Some?
  {
    PhaseCanMove(config, full, r);
    ConnCanMove(config, full, r);
  }

  // ----- every request ends -----

  lemma {:induction false} FinishersAreFew(begun: seq<bool>)
    ensures |Finishers(begun)| <= |begun|
  {
    if begun != [] { FinishersAreFew(begun[..|begun| - 1]); }
  }

  lemma {:induction false} ScriptIsShort(config: Config, phase: Phase)
    requires Live(phase) && PhaseInv(config, phase)
    ensures |Script(config, phase)| <= 11 + 2 * config.observers
  {
    FinishersAreFew(BegunOf(phase));
  }

  lemma {:induction false} TailIsShort(r: Request)
    requires DeferredInv(r)
    ensures |Tail(r)| <= 4
  {
  }

  lemma {:induction false} StoryIsShort(config: Config, r: Request)
    requires BodyInv(config, r)
    ensures |Story(config, r)| <= 15 + 2 * config.observers
  {
    ScriptIsShort(config, Core(r.phase));
    TailIsShort(r);
  }

  /** Moves of ServeHTTP, its callbacks and the code of the connection; arrivals of other calls on the
      connection and cancellations are the environment's. */
  predicate Internal(m: Move) {
    m.Conn? ==> C.Internal(m.e)
  }

  lemma {:induction false} NextMoveIsInternal(config: Config, full: bool, r: Request)
    requires RequestInv(config, r) && !r.phase.Done?
    ensures Internal(NextMove(config, full, r))
  {
    if r.phase.Closing? && !HasReturned(r.conn, SERVER_CLOSE) {
      C.NoDeadlock(r.conn.value, SERVER_CLOSE);
    } else if r.phase.ForcingClosed? && !HasReturned(r.conn, SERVER_FORCE) {
      C.NoDeadlock(r.conn.value, SERVER_FORCE);
    }
  }

  lemma {:induction false} SessionEventsAreFew(init: State, es: seq<Event>, s: State, id: nat)
    requires Initial(init) && Exec(init, es) == Some(s)
    ensures var events := SessionEvents(init, es, id);
      C.CountInternal(events) <= 6 + 7 * C.CountArrivals(events)
  {
    SessionsRunTheProtocol(init, es, s, id);
    assert C.Exec(FRESH, []) == Some(FRESH);
    assert C.Ranks(FRESH) == map[];
    assert C.Measure(FRESH) == 6;
    C.EveryCallReturns(FRESH, [], FRESH, SessionEvents(init, es, id), ConnOf(s, id));
  }

  lemma {:induction false} SomeMoveIsInternal(init: State, es: seq<Event>, s: State, id: nat)
    requires Initial(init) && Exec(init, es) == Some(s)
    requires id in s.requests && !s.requests[id].phase.Done?
    ensures exists m :: Internal(m) && Step(s, Do(id, m)).Some?
  {
    NoRequestIsStuck(init, es, s, id);
    ReachedRequest(init, es, s, id);
    NextMoveIsInternal(s.config, s.slots >= s.config.maxConnections, s.requests[id]);
  }

  /** Progress over whole runs. No request makes more than 15 moves of its own and two for each observer;
      its connection takes at most 6 steps and 7 for each call made on it; and when no request can move,
      all are done and no slot is held. */
  lemma {:induction false} EveryRequestEnds(init: State, es: seq<Event>, s: State)
    requires Initial(init) && Exec(init, es) == Some(s)
    ensures forall id :: |TraceOf(es, id)| <= 15 + 2 * init.config.observers
    ensures forall id :: C.CountInternal(SessionEvents(init, es, id)) <= 6 + 7 * C.CountArrivals(SessionEvents(init, es, id))
    ensures (forall id, m :: Internal(m) ==> Step(s, Do(id, m)).None?) ==>
              (forall id :: id in s.requests ==> s.requests[id].phase.Done?) && s.slots == 0 && s.active == 0
  {
    forall id: nat
      ensures |TraceOf(es, id)| <= 15 + 2 * init.config.observers
      ensures C.CountInternal(SessionEvents(init, es, id)) <= 6 + 7 * C.CountArrivals(SessionEvents(init, es, id))
    {
      ReachedRequest(init, es, s, id);
      if id in s.requests { StoryIsShort(s.config, s.requests[id]); }
      SessionEventsAreFew(init, es, s, id);
    }
    forall id | id in s.requests && !s.requests[id].phase.Done?
      ensures exists m :: Internal(m) && Step(s, Do(id, m)).Some?
    {
      SomeMoveIsInternal(init, es, s, id);
    }
    CapacityIsKept(init, es, s);
  }
}
