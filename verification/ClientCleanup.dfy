/** The cleanup closure that Dial returns: a second sync.Once layered over the close protocol. Any number
    of cleanup calls, concurrent or repeated, share one connection with whatever else closes it, and the
    observers' finishers run once. */
module ClientCleanup {
  import opened Basics
  import opened Errors
  import opened Observers
  import C = CloseProtocol

  datatype Phase =
    | Entered
    | InClose
    | Decided(outcome: Outcome)
    | Finishing(outcome: Outcome)
    | Leaving(outcome: Outcome)
    | Returned(result: Option<Err>)

  datatype Cleanup = Cleanup(ctx: Option<C.Context>, phase: Phase)

  /** finishOnce. `left` counts the finishers still to run; winner and report are kept after completion
      for the statements below. */
  datatype Once =
    | Unused
    | Running(winner: C.CallId, report: Report, left: nat)
    | Complete(winner: C.CallId, report: Report)

  /** `finishers` are the non-nil finishers in the order their observers began. */
  datatype State = State(
    conn: C.State,
    finishers: seq<nat>,
    once: Once,
    calls: map<C.CallId, Cleanup>)

  datatype Event =
    | Conn(e: C.Event)
    | BeginCleanup(id: C.CallId, ctx: Option<C.Context>)
    | RejectNil(id: C.CallId)
    | CallClose(id: C.CallId, context: C.Context)
    | Decide(id: C.CallId)
    | EnterFinish(id: C.CallId, report: Report)
    | RunFinisher(id: C.CallId, finisher: nat, report: Report)
    | LeaveFinish(id: C.CallId)
    | SkipFinish(id: C.CallId)
    | Leave(id: C.CallId)

  // ----- the code -----

  /** The call a cleanup makes. */
  function CloseOf(ctx: C.Context): C.Call {
    C.CloseCall(Some(ctx), NORMAL_CLOSURE, "")
  }

  function CloseResult(s: State, id: C.CallId): Option<Err> {
    if id in s.conn.callers && s.conn.callers[id].phase.Returned? then s.conn.callers[id].phase.result else None
  }

  function CauseOf(s: State, ctx: Option<C.Context>): Option<Err> {
    if ctx.Some? && ctx.value in s.conn.causes then Some(s.conn.causes[ctx.value]) else None
  }

  function Classify(closeErr: Option<Err>, cause: Option<Err>): Outcome {
    if closeErr.None? then Normal else if cause.Some? then Canceled else Failed
  }

  function WrapResult(closeErr: Option<Err>): Option<Err> {
    if closeErr.Some? then Some(Wrap("close WebSocket client", closeErr.value)) else None
  }

  /** The code a cleanup call runs. */
  function NextPhase(s: State, id: C.CallId, c: Cleanup, e: Event): Option<Phase> {
    match e
    case RejectNil(_) =>
      if c.phase.Entered? && c.ctx.None? then Some(Returned(Some(Opaque("close WebSocket client: context is nil"))))
      else None
    case CallClose(_, ctx) => if c.phase.Entered? && c.ctx == Some(ctx) then Some(InClose) else None
    case Decide(_) =>
      if c.phase.InClose? && id in s.conn.callers && s.conn.callers[id].phase.Returned? then
        Some(Decided(Classify(CloseResult(s, id), CauseOf(s, c.ctx))))
      else None
    case EnterFinish(_, report) =>
      if c.phase.Decided? && s.once.Unused? && report.outcome == c.phase.outcome then
        Some(Finishing(c.phase.outcome))
      else None
    case RunFinisher(_, finisher, report) =>
      if c.phase.Finishing? && s.once.Running? && s.once.winner == id && 0 < s.once.left <= |s.finishers| &&
         finisher == s.finishers[s.once.left - 1] && report == s.once.report
      then Some(c.phase) else None
    case LeaveFinish(_) =>
      if c.phase.Finishing? && s.once.Running? && s.once.winner == id && s.once.left == 0 then
        Some(Leaving(c.phase.outcome))
      else None
    case SkipFinish(_) => if c.phase.Decided? && s.once.Complete? then Some(Leaving(c.phase.outcome)) else None
    case Leave(_) => if c.phase.Leaving? then Some(Returned(WrapResult(CloseResult(s, id)))) else None
    case _ => None
  }

  function NextOnce(s: State, e: Event): Once {
    match e
    case EnterFinish(id, report) => Running(id, report, |s.finishers|)
    case RunFinisher(_, _, _) =>
      if s.once.Running? && s.once.left > 0 then s.once.(left := s.once.left - 1) else s.once
    case LeaveFinish(_) => if s.once.Running? then Complete(s.once.winner, s.once.report) else s.once
    case _ => s.once
  }

  /** Events that move the connection, and the connection's own event they stand for. */
  function ConnEvents(e: Event): seq<C.Event> {
    match e
    case Conn(c) => [c]
    case CallClose(id, ctx) => [C.Arrive(id, CloseOf(ctx))]
    case _ => []
  }

  function NextConn(s: State, e: Event): Option<C.State> {
    if ConnEvents(e) == [] then Some(s.conn) else C.Step(s.conn, ConnEvents(e)[0])
  }

  function Step(s: State, e: Event): Option<State> {
    var conn := NextConn(s, e);
    if conn.None? then None
    else if e.Conn? then
      // identifiers are never reused between cleanup calls and other calls
      if e.e.Arrive? && e.e.id in s.calls then None else Some(s.(conn := conn.value))
    else if e.BeginCleanup? then
      if e.id in s.calls || e.id in s.conn.callers then None
      else Some(s.(calls := s.calls[e.id := Cleanup(e.ctx, Entered)]))
    else if e.id !in s.calls then None
    else
      var next := NextPhase(s, e.id, s.calls[e.id], e);
      if next.None? then None
      else
        Some(State(conn.value, s.finishers, NextOnce(s, e),
                   s.calls[e.id := s.calls[e.id].(phase := next.value)]))
  }

  /** The state in which Dial hands out cleanup. */
  predicate Initial(s: State) {
    C.Initial(s.conn) && s.conn.connected && s.once.Unused? && s.calls == map[]
  }

  ghost function Exec(s: State, es: seq<Event>): Option<State> {
    if es == [] then Some(s)
    else
      var before := Exec(s, es[..|es| - 1]);
      if before.None? then None else Step(before.value, es[|es| - 1])
  }

  // ----- what every step keeps -----

  /** What a decided outcome says about the close that preceded it. */
  ghost predicate Classified(s: State, id: C.CallId, c: Cleanup, outcome: Outcome) {
    c.ctx.Some? && InConnection(s, id, c) && s.conn.callers[id].phase.Returned? &&
    var exit := s.conn.callers[id].phase.exit;
    (outcome == Normal <==> CloseResult(s, id).None?) &&
    (outcome == Canceled ==> c.ctx.value in s.conn.causes) &&
    (outcome == Failed ==> exit == C.Completed && s.conn.done && s.conn.closeErr == CloseResult(s, id)) &&
    (exit == C.AlreadyCanceled || exit == C.Interrupted ==> outcome == Canceled)
  }

  ghost predicate InConnection(s: State, id: C.CallId, c: Cleanup) {
    id in s.conn.callers && c.ctx.Some? && s.conn.callers[id].call == CloseOf(c.ctx.value)
  }

  ghost predicate CallInv(s: State, id: C.CallId, c: Cleanup) {
    match c.phase
    case Entered => id !in s.conn.callers
    case InClose => InConnection(s, id, c)
    case Decided(outcome) => Classified(s, id, c, outcome)
    case Finishing(outcome) =>
      Classified(s, id, c, outcome) && s.once.Running? && s.once.winner == id && s.once.report.outcome == outcome
    case Leaving(outcome) => Classified(s, id, c, outcome) && s.once.Complete? && OwnReport(s, id, outcome)
    case Returned(result) =>
      if c.ctx.None? then
        result == Some(Opaque("close WebSocket client: context is nil")) && id !in s.conn.callers
      else s.once.Complete? && result == WrapResult(CloseResult(s, id)) &&
           exists outcome :: Classified(s, id, c, outcome) && OwnReport(s, id, outcome)
  }

  /** The winner's outcome is the one reported. */
  ghost predicate OwnReport(s: State, id: C.CallId, outcome: Outcome) {
    s.once.Complete? && (s.once.winner == id ==> s.once.report.outcome == outcome)
  }

  ghost predicate SharedInv(s: State) {
    C.Inv(s.conn) && s.conn.connected &&
    (s.once.Running? ==> s.once.left <= |s.finishers| && s.once.winner in s.calls &&
                         s.calls[s.once.winner].phase.Finishing?) &&
    (s.once.Complete? ==> s.once.winner in s.calls && Finished(s.calls[s.once.winner]))
  }

  predicate Finished(c: Cleanup) {
    c.phase.Leaving? || (c.phase.Returned? && c.ctx.Some?)
  }

  ghost predicate Inv(s: State) {
    SharedInv(s) && forall id :: id in s.calls ==> CallInv(s, id, s.calls[id])
  }

  /** Finished closes, their causes and the stored error stay as they are. */
  lemma {:induction false} ClassifiedLasts(s: State, e: Event, t: State, id: C.CallId, c: Cleanup, outcome: Outcome)
    requires C.Inv(s.conn) && Step(s, e) == Some(t) && Classified(s, id, c, outcome)
    ensures Classified(t, id, c, outcome) && CloseResult(t, id) == CloseResult(s, id)
  {
    if ConnEvents(e) != [] {
      C.StepIsMonotone(s.conn, ConnEvents(e)[0], t.conn);
      if s.conn.done { C.StoredErrorLasts(s.conn, ConnEvents(e)[0], t.conn); }
    }
  }

  lemma {:induction false} StepKeepsConn(s: State, e: Event, t: State)
    requires C.Inv(s.conn) && s.conn.connected && Step(s, e) == Some(t)
    ensures C.Inv(t.conn) && t.conn.connected
    ensures t.finishers == s.finishers
    ensures forall id :: id in s.conn.callers ==> id in t.conn.callers && t.conn.callers[id].call == s.conn.callers[id].call
    ensures forall id :: id in t.conn.callers && id !in s.conn.callers ==>
                           id !in s.calls || (e.CallClose? && e.id == id)
  {
    if ConnEvents(e) != [] {
      C.StepKeepsInv(s.conn, ConnEvents(e)[0], t.conn);
      C.StepIsMonotone(s.conn, ConnEvents(e)[0], t.conn);
    }
  }

  lemma {:induction false} StepKeepsShared(s: State, e: Event, t: State)
    requires Inv(s) && Step(s, e) == Some(t)
    ensures SharedInv(t)
  {
    StepKeepsConn(s, e, t);
    if s.once.Running? { assert CallInv(s, s.once.winner, s.calls[s.once.winner]); }
  }

  lemma {:induction false} ReturnedLasts(s: State, e: Event, t: State, id: C.CallId, c: Cleanup)
    requires Inv(s) && Step(s, e) == Some(t) && CallInv(s, id, c) && c.phase.Returned? && c.ctx.Some?
    ensures CallInv(t, id, c)
  {
    var outcome :| Classified(s, id, c, outcome) && OwnReport(s, id, outcome);
    ClassifiedLasts(s, e, t, id, c, outcome);
    CompletionLasts(s, e, t);
    assert Classified(t, id, c, outcome) && OwnReport(t, id, outcome);
  }

  lemma {:induction false} CompletionLasts(s: State, e: Event, t: State)
    requires Step(s, e) == Some(t) && s.once.Complete?
    ensures t.once == s.once
  {
  }

  lemma {:induction false} StepKeepsOthers(s: State, e: Event, t: State, id: C.CallId)
    requires Inv(s) && Step(s, e) == Some(t)
    requires id in s.calls && id in t.calls && t.calls[id] == s.calls[id] && (e.RunFinisher? || e.Conn? || e.id != id)
    ensures CallInv(t, id, t.calls[id])
  {
    var c := s.calls[id];
    assert CallInv(s, id, c);
    if c.phase.Returned? && c.ctx.Some? {
      ReturnedLasts(s, e, t, id, c);
    } else if c.phase.Entered? || c.phase.InClose? || c.phase.Returned? {
      StepKeepsConn(s, e, t);
    } else {
      ClassifiedLasts(s, e, t, id, c, c.phase.outcome);
    }
  }

  lemma {:induction false} MoveKeepsCall(s: State, e: Event, t: State)
    requires Inv(s) && Step(s, e) == Some(t) && !e.Conn? && !e.BeginCleanup?
    ensures CallInv(t, e.id, t.calls[e.id])
  {
    assert CallInv(s, e.id, s.calls[e.id]);
    if e.CallClose? {
      assert e.id in t.conn.callers && t.conn.callers[e.id].call == CloseOf(e.context);
    } else {
      if e.Decide? { DecideClassifies(s, e.id); }
      QuietMoveKeepsCall(s, e, t);
    }
  }

  /** Moves that leave the connection alone. */
  lemma {:induction false} QuietMoveKeepsCall(s: State, e: Event, t: State)
    requires Step(s, e) == Some(t) && !e.Conn? && !e.BeginCleanup? && !e.CallClose?
    requires CallInv(s, e.id, s.calls[e.id])
    requires s.once.Complete? ==> s.once.winner in s.calls && Finished(s.calls[s.once.winner])
    requires e.Decide? ==> Classified(s, e.id, s.calls[e.id], Classify(CloseResult(s, e.id), CauseOf(s, s.calls[e.id].ctx)))
    ensures CallInv(t, e.id, t.calls[e.id])
  {
    var c := s.calls[e.id];
    assert t.conn == s.conn;
    if e.Leave? {
      assert Classified(t, e.id, t.calls[e.id], c.phase.outcome) && OwnReport(t, e.id, c.phase.outcome);
    }
  }

  /** The outcome rule agrees with the way the close ended: cancellation is never taken back, so a close
      that was cut short is seen as canceled, and one that is not was the shared handshake failing. */
  lemma {:induction false} DecideClassifies(s: State, id: C.CallId)
    requires Inv(s) && id in s.calls && s.calls[id].phase.InClose?
    requires id in s.conn.callers && s.conn.callers[id].phase.Returned?
    ensures Classified(s, id, s.calls[id], Classify(CloseResult(s, id), CauseOf(s, s.calls[id].ctx)))
  {
    assert CallInv(s, id, s.calls[id]);
    C.ReturnedCloseFacts(s.conn, id);
  }

  lemma {:induction false} StepKeepsInv(s: State, e: Event, t: State)
    requires Inv(s) && Step(s, e) == Some(t)
    ensures Inv(t)
  {
    StepKeepsShared(s, e, t);
    forall id | id in t.calls
      ensures CallInv(t, id, t.calls[id])
    {
      if !e.Conn? && !e.BeginCleanup? && e.id == id {
        MoveKeepsCall(s, e, t);
      } else if id in s.calls {
        StepKeepsOthers(s, e, t, id);
      }
    }
  }

  // ----- whole runs -----

  /** The finisher calls of a run, in order. */
  ghost function Reports(es: seq<Event>): seq<Notice> {
    if es == [] then []
    else
      var e := es[|es| - 1];
      Reports(es[..|es| - 1]) + (if e.RunFinisher? then [Ran(e.finisher, e.report)] else [])
  }

  /** finishOnce is entered at most once, by the recorded winner. */
  ghost predicate OneWinner(es: seq<Event>, once: Once) {
    (forall i :: 0 <= i < |es| && es[i].EnterFinish? ==>
                   !once.Unused? && es[i] == EnterFinish(once.winner, once.report)) &&
    (forall i, j :: 0 <= i < j < |es| && es[i].EnterFinish? ==> !es[j].EnterFinish?) &&
    (!once.Unused? ==> EnterFinish(once.winner, once.report) in es)
  }

  /** The finishers called so far. */
  ghost function SoFar(s: State): seq<Notice> {
    match s.once
    case Unused => []
    case Running(_, report, left) =>
      FinishNotices(s.finishers, report)[..if left <= |s.finishers| then |s.finishers| - left else 0]
    case Complete(_, report) => FinishNotices(s.finishers, report)
  }

  ghost predicate History(es: seq<Event>, s: State) {
    OneWinner(es, s.once) && Reports(es) == SoFar(s)
  }

  lemma {:induction false} StepMovesOnce(s: State, e: Event, t: State)
    requires Step(s, e) == Some(t)
    ensures t.once == NextOnce(s, e) && t.finishers == s.finishers
    ensures e.EnterFinish? ==> s.once.Unused?
    ensures e.RunFinisher? ==> s.once.Running? && 0 < s.once.left <= |s.finishers| &&
                               e.finisher == s.finishers[s.once.left - 1] && e.report == s.once.report
    ensures e.LeaveFinish? ==> s.once.Running? && s.once.left == 0
  {
  }

  lemma {:induction false} StepKeepsOneWinner(es: seq<Event>, s: State, e: Event, t: State)
    requires OneWinner(es, s.once) && Step(s, e) == Some(t)
    ensures OneWinner(es + [e], t.once)
  {
    StepMovesOnce(s, e, t);
    assert forall x :: x in es ==> x in es + [e];
  }

  lemma {:induction false} ReportsGrow(es: seq<Event>, e: Event)
    ensures Reports(es + [e]) == Reports(es) + (if e.RunFinisher? then [Ran(e.finisher, e.report)] else [])
  {
    assert (es + [e])[..|es|] == es;
  }

  /** What a step adds to the finishers called. */
  lemma {:induction false} SoFarGrows(s: State, e: Event, t: State)
    requires t.once == NextOnce(s, e) && t.finishers == s.finishers
    requires e.EnterFinish? ==> s.once.Unused?
    requires e.RunFinisher? ==> s.once.Running? && 0 < s.once.left <= |s.finishers| &&
                                e.finisher == s.finishers[s.once.left - 1] && e.report == s.once.report
    requires e.LeaveFinish? ==> s.once.Running? && s.once.left == 0
    ensures SoFar(t) == SoFar(s) + (if e.RunFinisher? then [Ran(e.finisher, e.report)] else [])
  {
    if s.once.Running? {
      var chain := FinishNotices(s.finishers, s.once.report);
      if e.RunFinisher? {
        var n := |s.finishers| - s.once.left;
        assert chain[..n + 1] == chain[..n] + [Ran(e.finisher, e.report)];
      } else if e.LeaveFinish? {
        assert chain[..|s.finishers|] == chain;
      }
    }
  }

  lemma {:induction false} StepKeepsHistory(es: seq<Event>, s: State, e: Event, t: State)
    requires History(es, s) && Step(s, e) == Some(t)
    ensures History(es + [e], t)
  {
    StepKeepsOneWinner(es, s, e, t);
    StepMovesOnce(s, e, t);
    ReportsGrow(es, e);
    SoFarGrows(s, e, t);
  }

  /** The connection's share of a run is a run of the close protocol. */
  ghost function ConnTrace(es: seq<Event>): seq<C.Event> {
    if es == [] then [] else ConnTrace(es[..|es| - 1]) + ConnEvents(es[|es| - 1])
  }

  lemma {:induction false} RunsKeepInv(init: State, es: seq<Event>, s: State)
    requires Initial(init) && Exec(init, es) == Some(s)
    ensures Inv(s) && History(es, s)
    ensures s.finishers == init.finishers
  {
    if es == [] {
      StartsWell(init);
    } else {
      var before, e := es[..|es| - 1], es[|es| - 1];
      assert es == before + [e];
      RunsKeepInv(init, before, Exec(init, before).value);
      StepKeepsAll(before, Exec(init, before).value, e, s);
    }
  }

  lemma {:induction false} StartsWell(init: State)
    requires Initial(init)
    ensures Inv(init) && History([], init)
  {
  }

  lemma {:induction false} StepKeepsAll(es: seq<Event>, s: State, e: Event, t: State)
    requires Inv(s) && History(es, s) && Step(s, e) == Some(t)
    ensures Inv(t) && History(es + [e], t) && t.finishers == s.finishers
  {
    StepKeepsInv(s, e, t);
    StepMovesOnce(s, e, t);
    StepKeepsHistory(es, s, e, t);
  }

  /** The connection in the middle of cleanup calls lives by the close protocol, so all that is proved
      there holds here. */
  lemma {:induction false} ConnectionRunsTheProtocol(init: State, es: seq<Event>, s: State)
    requires Initial(init) && Exec(init, es) == Some(s)
    ensures C.Initial(init.conn) && C.Exec(init.conn, ConnTrace(es)) == Some(s.conn)
  {
    if es != [] {
      var t := Exec(init, es[..|es| - 1]).value;
      ConnectionRunsTheProtocol(init, es[..|es| - 1], t);
      ConnTraceStep(init, es, t);
    }
  }

  lemma {:induction false} ConnTraceStep(init: State, es: seq<Event>, before: State)
    requires es != [] && C.Exec(init.conn, ConnTrace(es[..|es| - 1])) == Some(before.conn)
    requires Step(before, es[|es| - 1]).Some?
    ensures C.Exec(init.conn, ConnTrace(es)) == Some(Step(before, es[|es| - 1]).value.conn)
  {
    var conn, e := ConnTrace(es[..|es| - 1]), es[|es| - 1];
    if ConnEvents(e) == [] {
      assert ConnTrace(es) == conn;
    } else {
      C.ExecOneMore(init.conn, conn, ConnEvents(e)[0]);
      assert ConnEvents(e) == [ConnEvents(e)[0]];
    }
  }

  lemma {:induction false} PrefixRuns(init: State, es: seq<Event>, n: nat)
    requires Exec(init, es).Some? && n < |es|
    ensures Exec(init, es[..n]).Some? && Step(Exec(init, es[..n]).value, es[n]).Some?
  {
    if n == |es| - 1 {
      assert es[..n] == es[..|es| - 1];
    } else {
      PrefixRuns(init, es[..|es| - 1], n);
      assert es[..|es| - 1][..n] == es[..n];
    }
  }

  // ----- main results -----

  /** In every run, one call at most wins finishOnce, and the finishers called are a beginning of the
      chain: each at most once, in reverse order, all with the winner's report. */
  lemma {:induction false} FinishersRunAtMostOnce(init: State, es: seq<Event>, s: State)
    requires Initial(init) && Exec(init, es) == Some(s)
    ensures forall i, j :: 0 <= i < |es| && 0 <= j < |es| && es[i].EnterFinish? && es[j].EnterFinish? ==> i == j
    ensures forall i :: 0 <= i < |es| && es[i].EnterFinish? ==> Reports(es) <= FinishNotices(init.finishers, es[i].report)
    ensures (forall i :: 0 <= i < |es| ==> !es[i].EnterFinish?) ==> Reports(es) == []
  {
    RunsKeepInv(init, es, s);
  }

  lemma {:induction false} LeavingNeedsCompletion(s: State, e: Event)
    requires Inv(s) && Step(s, e).Some? && e.Leave?
    ensures s.once.Complete?
  {
    assert CallInv(s, e.id, s.calls[e.id]);
  }

  lemma {:induction false} DoneByReturn(init: State, es: seq<Event>, k: nat) returns (i: nat)
    requires Initial(init) && Exec(init, es).Some? && k < |es| && es[k].Leave?
    ensures i < k && es[i].EnterFinish? && Reports(es[..k]) == FinishNotices(init.finishers, es[i].report)
  {
    PrefixRuns(init, es, k);
    var t := Exec(init, es[..k]).value;
    RunsKeepInv(init, es[..k], t);
    LeavingNeedsCompletion(t, es[k]);
    i :| 0 <= i < k && es[..k][i] == EnterFinish(t.once.winner, t.once.report);
  }

  /** Before any cleanup call with a context returns, the whole chain has run, exactly once, and it never
      runs again. */
  lemma {:induction false} FinishersRunBeforeReturn(init: State, es: seq<Event>, s: State, k: nat)
    requires Initial(init) && Exec(init, es) == Some(s)
    requires k < |es| && es[k].Leave?
    ensures exists i :: 0 <= i < k && es[i].EnterFinish? &&
                        Reports(es[..k]) == FinishNotices(init.finishers, es[i].report) == Reports(es)
  {
    var i := DoneByReturn(init, es, k);
    FinishersRunAtMostOnce(init, es, s);
    LaterReports(es, k);
    assert Reports(es) <= FinishNotices(init.finishers, es[i].report);
    Squeeze(Reports(es[..k]), Reports(es));
  }

  lemma {:induction false} Squeeze(a: seq<Notice>, b: seq<Notice>)
    requires a <= b <= a
    ensures a == b
  {
  }

  lemma {:induction false} LaterReports(es: seq<Event>, k: nat)
    requires k <= |es|
    ensures Reports(es[..k]) <= Reports(es)
  {
    if k == |es| {
      assert es[..k] == es;
    } else {
      LaterReports(es[..|es| - 1], k);
      assert es[..|es| - 1][..k] == es[..k];
    }
  }

  lemma {:induction false} WinnerIsClassified(s: State)
    requires Inv(s) && !s.once.Unused?
    ensures s.once.winner in s.calls &&
            Classified(s, s.once.winner, s.calls[s.once.winner], s.once.report.outcome)
  {
    assert CallInv(s, s.once.winner, s.calls[s.once.winner]);
  }

  /** The outcome a call has settled on. */
  predicate HasOutcome(c: Cleanup) {
    c.phase.Decided? || c.phase.Finishing? || c.phase.Leaving?
  }

  /** The outcome decided at position j: Normal if the call's Close returned nil, else Canceled if its
      context was canceled by then, else Failed. */
  ghost predicate DecidedAt(init: State, es: seq<Event>, j: nat, id: C.CallId, ctx: C.Context, outcome: Outcome) {
    j < |es| && es[j] == Decide(id) && Exec(init, es[..j]).Some? &&
    var conn := Exec(init, es[..j]).value.conn;
    id in conn.callers && conn.callers[id].phase.Returned? &&
    outcome == if conn.callers[id].phase.result.None? then Normal else if ctx in conn.causes then Canceled else Failed
  }

  lemma {:induction false} StepKeepsOutcome(s: State, e: Event, t: State, id: C.CallId)
    requires Step(s, e) == Some(t) && id in t.calls && HasOutcome(t.calls[id]) && e != Decide(id)
    ensures id in s.calls && HasOutcome(s.calls[id]) && s.calls[id].phase.outcome == t.calls[id].phase.outcome
    ensures s.calls[id].ctx == t.calls[id].ctx
  {
  }

  lemma {:induction false} DecideReadsTheContext(s: State, t: State, id: C.CallId)
    requires Step(s, Decide(id)) == Some(t)
    ensures id in s.conn.callers && s.conn.callers[id].phase.Returned? && id in t.calls && t.calls[id].phase.Decided?
    ensures t.calls[id].phase.outcome ==
              if s.conn.callers[id].phase.result.None? then Normal
              else if t.calls[id].ctx.Some? && t.calls[id].ctx.value in s.conn.causes then Canceled else Failed
  {
  }

  lemma {:induction false} OutcomeWasDecided(init: State, es: seq<Event>, s: State, id: C.CallId) returns (j: nat)
    requires Initial(init) && Exec(init, es) == Some(s) && id in s.calls && HasOutcome(s.calls[id]) && s.calls[id].ctx.Some?
    ensures DecidedAt(init, es, j, id, s.calls[id].ctx.value, s.calls[id].phase.outcome)
  {
    var before, e := es[..|es| - 1], es[|es| - 1];
    var t := Exec(init, before).value;
    if e == Decide(id) {
      DecideReadsTheContext(t, s, id);
      j := |es| - 1;
    } else {
      StepKeepsOutcome(t, e, s, id);
      j := OutcomeWasDecided(init, before, t, id);
      assert es[..j] == before[..j];
    }
  }

  lemma {:induction false} WinnerDecided(init: State, es: seq<Event>, k: nat) returns (j: nat, ctx: C.Context)
    requires Initial(init) && Exec(init, es).Some? && k < |es| && es[k].EnterFinish?
    ensures j < k && DecidedAt(init, es, j, es[k].id, ctx, es[k].report.outcome)
    ensures var s := Exec(init, es).value; es[k].id in s.calls && s.calls[es[k].id].ctx == Some(ctx)
  {
    PrefixRuns(init, es, k);
    var t := Exec(init, es[..k]).value;
    RunsKeepInv(init, es[..k], t);
    assert CallInv(t, es[k].id, t.calls[es[k].id]);
    ctx := t.calls[es[k].id].ctx.value;
    j := OutcomeWasDecided(init, es[..k], t, es[k].id);
    assert es[..k][..j] == es[..j];
    ContextStays(init, es, k, es[k].id);
  }

  lemma {:induction false} ContextStays(init: State, es: seq<Event>, k: nat, id: C.CallId)
    requires k <= |es| && Exec(init, es[..k]).Some? && Exec(init, es).Some? && id in Exec(init, es[..k]).value.calls
    ensures id in Exec(init, es).value.calls
    ensures Exec(init, es).value.calls[id].ctx == Exec(init, es[..k]).value.calls[id].ctx
  {
    if k == |es| {
      assert es[..k] == es;
    } else {
      assert es[..|es| - 1][..k] == es[..k];
      ContextStays(init, es[..|es| - 1], k, id);
    }
  }

  /** What the winner's outcome says about its close. */
  ghost predicate OutcomeTells(s: State, id: C.CallId, outcome: Outcome) {
    id in s.calls && s.calls[id].ctx.Some? && id in s.conn.callers && s.conn.callers[id].phase.Returned? &&
    var exit, result := s.conn.callers[id].phase.exit, s.conn.callers[id].phase.result;
    (exit == C.AlreadyCanceled || exit == C.Completed || exit == C.Interrupted) &&
    (outcome == Normal <==> result.None?) &&
    (outcome == Normal ==> s.conn.worker.Finished? && C.HandshakeGives(s.conn.worker.saw, None)) &&
    (exit == C.AlreadyCanceled || exit == C.Interrupted ==> outcome == Canceled) &&
    (outcome == Canceled ==> s.calls[id].ctx.value in s.conn.causes) &&
    (outcome == Failed ==> exit == C.Completed && result == s.conn.closeErr && result.Some?)
  }

  lemma {:induction false} WinnerTells(s: State)
    requires Inv(s) && !s.once.Unused?
    ensures OutcomeTells(s, s.once.winner, s.once.report.outcome)
  {
    WinnerIsClassified(s);
    C.ReturnedCloseFacts(s.conn, s.once.winner);
    if s.conn.worker.Finished? { C.StoredErrorIsGiven(s.conn.worker.saw); }
  }

  /** The reported outcome is the winner's, and says how its close went: Normal exactly when Close
      returned nil, which it does only if the library saw nil or a closed socket; otherwise Canceled
      exactly if the winner's context was canceled when it decided, as it was whenever cancellation ended
      the close; and Failed only if the shared stored error is non-nil and is what the winner got. */
  lemma {:induction false} ReportedOutcome(init: State, es: seq<Event>, s: State, k: nat)
    requires Initial(init) && Exec(init, es) == Some(s)
    requires k < |es| && es[k].EnterFinish?
    ensures OutcomeTells(s, es[k].id, es[k].report.outcome)
    ensures exists j :: 0 <= j < k && DecidedAt(init, es, j, es[k].id, s.calls[es[k].id].ctx.value, es[k].report.outcome)
  {
    var j, ctx := WinnerDecided(init, es, k);
    RunsKeepInv(init, es, s);
    assert es[k] == EnterFinish(s.once.winner, s.once.report);
    WinnerTells(s);
  }

  lemma {:induction false} ReturnedCleanupFacts(s: State, id: C.CallId)
    requires Inv(s) && id in s.calls && s.calls[id].phase.Returned? && s.calls[id].ctx.Some?
    ensures id in s.conn.callers && s.conn.callers[id].phase.Returned?
    ensures s.conn.callers[id].call == C.CloseCall(s.calls[id].ctx, 1000, "")
    ensures s.calls[id].phase.result ==
              match s.conn.callers[id].phase.result
              case Some(err) => Some(Wrap("close WebSocket client", err))
              case None => None
  {
    assert CallInv(s, id, s.calls[id]);
  }

  /** What cleanup returns: nil exactly when its Close did; else that error wrapped, so that both searches
      for close errors find in it what they find in the error of Close, and all its parts are there, the
      cause of a canceled call among them. Never an argument error. */
  lemma {:induction false} CleanupResults(init: State, es: seq<Event>, s: State, id: C.CallId)
    requires Initial(init) && Exec(init, es) == Some(s)
    requires id in s.calls && s.calls[id].phase.Returned? && s.calls[id].ctx.Some?
    ensures id in s.conn.callers && s.conn.callers[id].phase.Returned?
    ensures s.conn.callers[id].call == C.CloseCall(s.calls[id].ctx, 1000, "")
    ensures var result, exit := s.calls[id].phase.result, s.conn.callers[id].phase.exit;
      var closed := s.conn.callers[id].phase.result;
      exit != C.Rejected &&
      (result.None? <==> closed.None?) &&
      (result.Some? && closed.Some? ==>
         FirstPeer(result.value) == FirstPeer(closed.value) && FirstNative(result.value) == FirstNative(closed.value) &&
         forall part :: part in Parts(closed.value) ==> part in Parts(result.value)) &&
      (exit == C.AlreadyCanceled || exit == C.Interrupted ==>
         s.calls[id].ctx.value in s.conn.causes && result.Some? &&
         s.conn.causes[s.calls[id].ctx.value] in Parts(result.value))
  {
    RunsKeepInv(init, es, s);
    ReturnedCleanupFacts(s, id);
    ConnectionRunsTheProtocol(init, es, s);
    C.CloseResults(init.conn, ConnTrace(es), s.conn, id);
  }

  /** Any two cleanup calls that saw the handshake through return the same: the shared stored error,
      wrapped, or nil. */
  lemma {:induction false} CompletedCleanupsAgree(init: State, es: seq<Event>, s: State, a: C.CallId, b: C.CallId)
    requires Initial(init) && Exec(init, es) == Some(s)
    requires a in s.calls && s.calls[a].phase.Returned? && s.calls[a].ctx.Some?
    requires b in s.calls && s.calls[b].phase.Returned? && s.calls[b].ctx.Some?
    ensures a in s.conn.callers && b in s.conn.callers
    ensures s.conn.callers[a].phase.Returned? && s.conn.callers[b].phase.Returned?
    ensures s.conn.callers[a].phase.exit == s.conn.callers[b].phase.exit == C.Completed ==>
              s.calls[a].phase.result == s.calls[b].phase.result &&
              (s.calls[a].phase.result.None? <==> s.conn.closeErr.None?) &&
              (s.conn.closeErr.Some? ==> s.calls[a].phase.result == Some(Wrap("close WebSocket client", s.conn.closeErr.value)))
  {
    RunsKeepInv(init, es, s);
    ReturnedCleanupFacts(s, a);
    ReturnedCleanupFacts(s, b);
    C.ReturnedCloseFacts(s.conn, a);
    C.ReturnedCloseFacts(s.conn, b);
  }

  /** A cleanup call without a context fails, closes nothing and wins nothing. */
  lemma {:induction false} NilContextIsRejected(init: State, es: seq<Event>, s: State, id: C.CallId)
    requires Initial(init) && Exec(init, es) == Some(s)
    requires id in s.calls && s.calls[id].ctx.None? && s.calls[id].phase.Returned?
    ensures s.calls[id].phase.result == Some(Opaque("close WebSocket client: context is nil"))
    ensures id !in s.conn.callers
    ensures s.once.Unused? || s.once.winner != id
  {
    RunsKeepInv(init, es, s);
    assert CallInv(s, id, s.calls[id]);
  }

  /** Once a cleanup call with a context has returned, the observers have seen a whole session, nested. */
  lemma {:induction false} ClientSessionsNest(init: State, es: seq<Event>, s: State, responses: seq<bool>, k: nat)
    requires Initial(init) && Exec(init, es) == Some(s) && init.finishers == Finishers(responses)
    requires k < |es| && es[k].Leave?
    ensures Nest(BeginNotices(responses) + Reports(es), []) == Some([])
  {
    FinishersRunBeforeReturn(init, es, s, k);
    var i :| 0 <= i < k && es[i].EnterFinish? &&
             Reports(es[..k]) == FinishNotices(init.finishers, es[i].report) == Reports(es);
    SessionsNest(responses, es[i].report);
  }

  // ----- progress -----

  predicate Internal(e: Event) {
    !e.BeginCleanup? && (e.Conn? ==> C.Internal(e.e))
  }

  function Rank(c: Cleanup): nat {
    match c.phase
    case Entered => 12
    case InClose => 4
    case Decided(_) => 3
    case Finishing(_) => 2
    case Leaving(_) => 1
    case Returned(_) => 0
  }

  function OnceRank(s: State): nat {
    match s.once
    case Unused => |s.finishers| + 1
    case Running(_, _, left) => left
    case Complete(_, _) => 0
  }

  ghost function Ranks(s: State): map<C.CallId, nat> {
    map id | id in s.calls :: Rank(s.calls[id])
  }

  ghost function Measure(s: State): nat {
    C.Measure(s.conn) + Sum(Ranks(s)) + OnceRank(s)
  }

  lemma {:induction false} MovesLowerRank(s: State, e: Event, t: State)
    requires Step(s, e) == Some(t) && !e.Conn? && !e.BeginCleanup?
    ensures t.calls == s.calls[e.id := t.calls[e.id]]
    ensures Rank(t.calls[e.id]) + OnceRank(t) + (if e.CallClose? then 7 else 0) < Rank(s.calls[e.id]) + OnceRank(s)
  {
  }

  lemma {:induction false} RanksUpdate(s: State, t: State, id: C.CallId)
    requires id in t.calls && t.calls == s.calls[id := t.calls[id]]
    ensures Sum(Ranks(t)) == Sum(Ranks(s)) - (if id in s.calls then Rank(s.calls[id]) else 0) + Rank(t.calls[id])
  {
    assert Ranks(t) == Ranks(s)[id := Rank(t.calls[id])];
    SumUpdate(Ranks(s), id, Rank(t.calls[id]));
  }

  lemma {:induction false} StepMovesMeasure(s: State, e: Event, t: State)
    requires Inv(s) && Step(s, e) == Some(t)
    ensures Internal(e) ==> Measure(t) < Measure(s)
    ensures !Internal(e) ==> Measure(t) <= Measure(s) + 12
  {
    if ConnEvents(e) != [] { C.StepMovesMeasure(s.conn, ConnEvents(e)[0], t.conn); }
    if e.Conn? {
      assert Ranks(t) == Ranks(s);
    } else {
      if Internal(e) { MovesLowerRank(s, e, t); }
      RanksUpdate(s, t, e.id);
    }
  }

  ghost function CountInternal(es: seq<Event>): nat {
    if es == [] then 0 else CountInternal(es[..|es| - 1]) + (if Internal(es[|es| - 1]) then 1 else 0)
  }

  lemma {:induction false} ContinuationsKeepInv(s: State, es: seq<Event>, t: State)
    requires Inv(s) && Exec(s, es) == Some(t)
    ensures Inv(t)
    ensures CountInternal(es) + Measure(t) <= Measure(s) + 12 * (|es| - CountInternal(es))
  {
    if es != [] {
      var mid := Exec(s, es[..|es| - 1]).value;
      ContinuationsKeepInv(s, es[..|es| - 1], mid);
      StepKeepsInv(mid, es[|es| - 1], t);
      StepMovesMeasure(mid, es[|es| - 1], t);
    }
  }

  /** The step that is due when cleanup call `id` has not returned. */
  ghost function NextStep(s: State, id: C.CallId): Event
    requires id in s.calls
  {
    var c := s.calls[id];
    match c.phase
    case Entered => if c.ctx.Some? then CallClose(id, c.ctx.value) else RejectNil(id)
    case InClose =>
      if id in s.conn.callers && !s.conn.callers[id].phase.Returned? then Conn(C.NextStep(s.conn, id)) else Decide(id)
    case Decided(outcome) => (
      match s.once
      case Unused => EnterFinish(id, Report(outcome, 0))
      case Running(winner, _, _) => WinnerStep(s)
      case Complete(_, _) => SkipFinish(id)
    )
    case Finishing(_) => WinnerStep(s)
    case _ => Leave(id)
  }

  ghost function WinnerStep(s: State): Event {
    if s.once.Running? && 0 < s.once.left <= |s.finishers| then
      RunFinisher(s.once.winner, s.finishers[s.once.left - 1], s.once.report)
    else if s.once.Running? then LeaveFinish(s.once.winner)
    else LeaveFinish(0)
  }

  lemma {:induction false} WinnerCanMove(s: State)
    requires SharedInv(s) && s.once.Running?
    ensures Internal(WinnerStep(s)) && Step(s, WinnerStep(s)).Some?
  {
  }

  lemma {:induction false} NoDeadlock(s: State, id: C.CallId)
    requires Inv(s) && id in s.calls && !s.calls[id].phase.Returned?
    ensures Internal(NextStep(s, id)) && Step(s, NextStep(s, id)).Some?
  {
    assert CallInv(s, id, s.calls[id]);
    CallCanMove(s, id);
  }

  lemma {:induction false} CallCanMove(s: State, id: C.CallId)
    requires SharedInv(s) && id in s.calls && !s.calls[id].phase.Returned? && CallInv(s, id, s.calls[id])
    ensures Internal(NextStep(s, id)) && Step(s, NextStep(s, id)).Some?
  {
    match s.calls[id].phase
    case InClose => if !s.conn.callers[id].phase.Returned? { C.NoDeadlock(s.conn, id); }
    case Decided(_) => if s.once.Running? { WinnerCanMove(s); }
    case Finishing(_) => WinnerCanMove(s);
    case _ =>
  }

  /** Every cleanup call returns: steps of the code are bounded by the measure plus 12 for each arrival or
      cancellation, and where none is possible all calls have returned. */
  lemma {:induction false} EveryCleanupReturns(init: State, past: seq<Event>, s: State, es: seq<Event>, t: State)
    requires Initial(init) && Exec(init, past) == Some(s) && Exec(s, es) == Some(t)
    ensures CountInternal(es) <= Measure(s) + 12 * (|es| - CountInternal(es))
    ensures (forall e :: Internal(e) ==> Step(t, e).None?) ==> forall id :: id in t.calls ==> t.calls[id].phase.Returned?
  {
    RunsKeepInv(init, past, s);
    ContinuationsKeepInv(s, es, t);
    forall id | id in t.calls && !t.calls[id].phase.Returned?
      ensures exists e :: Internal(e) && Step(t, e).Some?
    {
      NoDeadlock(t, id);
    }
  }
}
