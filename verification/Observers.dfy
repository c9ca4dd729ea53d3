/** Session observers: begun in list order, their non-nil finishers run backwards. */
module Observers {
  import opened Basics
  import opened Errors

  /** The Result given to finishers; the Interaction is fixed for the whole session. */
  datatype Report = Report(outcome: Outcome, duration: nat)

  /** A call into an observer: BeginSession, with whether it returned a finisher, or that finisher. */
  datatype Notice =
    | Began(observer: nat, gives: bool)
    | Ran(observer: nat, report: Report)

  /** The observers that returned a finisher, in list order. */
  function Finishers(responses: seq<bool>): seq<nat> {
    if responses == [] then []
    else
      var last := |responses| - 1;
      Finishers(responses[..last]) + (if responses[last] then [last] else [])
  }

  function BeginNotices(responses: seq<bool>): seq<Notice> {
    seq(|responses|, i requires 0 <= i < |responses| => Began(i, responses[i]))
  }

  /** The finishers backwards, each given the same report. */
  function FinishNotices(finishers: seq<nat>, report: Report): seq<Notice> {
    seq(|finishers|, i requires 0 <= i < |finishers| => Ran(finishers[|finishers| - 1 - i], report))
  }

  /** beginObservers and the closure it returns. `notices` records every call made into an observer;
      what each observer returns is the observers' business and comes in as `responses`. */
  class Session {
    var notices: seq<Notice>
    var finishers: seq<nat>

    constructor ()
      ensures notices == [] && finishers == []
    {
      notices := [];
      finishers := [];
    }

    method Begin(responses: seq<bool>)
      modifies this
      ensures notices == old(notices) + BeginNotices(responses)
      ensures finishers == Finishers(responses)
    {
      finishers := [];
      for i := 0 to |responses|
        invariant notices == old(notices) + BeginNotices(responses[..i])
        invariant finishers == Finishers(responses[..i])
      {
        notices := notices + [Began(i, responses[i])];
        if responses[i] {
          finishers := finishers + [i];
        }
        assert responses[..i + 1][..i] == responses[..i];
        assert BeginNotices(responses[..i + 1]) == BeginNotices(responses[..i]) + [Began(i, responses[i])];
      }
      assert responses[..|responses|] == responses;
    }

    method Finish(report: Report)
      modifies this`notices
      ensures notices == old(notices) + FinishNotices(finishers, report)
    {
      var left := |finishers|;
      while left > 0
        invariant 0 <= left <= |finishers|
        invariant notices == old(notices) + FinishNotices(finishers, report)[..|finishers| - left]
      {
        left := left - 1;
        notices := notices + [Ran(finishers[left], report)];
        var all, n := FinishNotices(finishers, report), |finishers| - left;
        assert all[..n] == all[..n - 1] + [all[n - 1]];
      }
      assert FinishNotices(finishers, report)[..|finishers|] == FinishNotices(finishers, report);
    }
  }

  /** Exactly the observers that returned a finisher are listed, once each, in list order. */
  lemma {:induction false} FinishersAreTheGivers(responses: seq<bool>)
    ensures forall i :: i in Finishers(responses) <==> 0 <= i < |responses| && responses[i]
    ensures forall i, j :: 0 <= i < j < |Finishers(responses)| ==> Finishers(responses)[i] < Finishers(responses)[j]
  {
    if responses != [] {
      var last := |responses| - 1;
      var before := Finishers(responses[..last]);
      FinishersAreTheGivers(responses[..last]);
      forall i
        ensures i in Finishers(responses) <==> i in before || (responses[last] && i == last)
      {
      }
      forall i | 0 <= i < |before|
        ensures before[i] < last
      {
        assert before[i] in before;
      }
    }
  }

  /** A stack of open sessions: BeginSession with a finisher opens one, and only the one opened last may
      be finished. None if the notices do not nest. */
  ghost function Nest(notices: seq<Notice>, open: seq<nat>): Option<seq<nat>> {
    if notices == [] then Some(open)
    else
      match notices[0]
      case Began(observer, gives) => Nest(notices[1..], if gives then open + [observer] else open)
      case Ran(observer, _) =>
        if open != [] && open[|open| - 1] == observer then Nest(notices[1..], open[..|open| - 1]) else None
  }

  lemma {:induction false} NestAppend(a: seq<Notice>, b: seq<Notice>, open: seq<nat>)
    ensures Nest(a + b, open) == if Nest(a, open).Some? then Nest(b, Nest(a, open).value) else None
  {
    if a == [] {
      assert a + b == b;
    } else {
      assert (a + b)[1..] == a[1..] + b;
      match a[0]
      case Began(observer, gives) => NestAppend(a[1..], b, if gives then open + [observer] else open);
      case Ran(observer, _) =>
        if open != [] { NestAppend(a[1..], b, open[..|open| - 1]); }
    }
  }

  lemma {:induction false} BeginOpens(responses: seq<bool>)
    ensures Nest(BeginNotices(responses), []) == Some(Finishers(responses))
  {
    if responses != [] {
      var last := |responses| - 1;
      BeginOpens(responses[..last]);
      var step := Began(last, responses[last]);
      assert BeginNotices(responses) == BeginNotices(responses[..last]) + [step];
      NestAppend(BeginNotices(responses[..last]), [step], []);
      assert [step][1..] == [];
      var open := Finishers(responses[..last]);
      assert Finishers(responses) == if responses[last] then open + [last] else open;
      assert Nest([step], open) == Nest([], Finishers(responses));
    }
  }

  lemma {:induction false} FinishCloses(finishers: seq<nat>, report: Report)
    ensures Nest(FinishNotices(finishers, report), finishers) == Some([])
  {
    if finishers != [] {
      var rest := finishers[..|finishers| - 1];
      FinishCloses(rest, report);
      assert FinishNotices(finishers, report)[1..] == FinishNotices(rest, report);
    }
  }

  /** A session's notices nest: every finisher is run, once, the last opened first. */
  lemma {:induction false} SessionsNest(responses: seq<bool>, report: Report)
    ensures Nest(BeginNotices(responses) + FinishNotices(Finishers(responses), report), []) == Some([])
  {
    BeginOpens(responses);
    FinishCloses(Finishers(responses), report);
    NestAppend(BeginNotices(responses), FinishNotices(Finishers(responses), report), []);
  }
}
