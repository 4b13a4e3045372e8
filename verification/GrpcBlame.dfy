/** Which results of calls open a target's breaker, over every interleaving of the client chain. */
module GrpcBlame {
  import opened Breaker
  import BreakerRuns
  import opened GrpcRetry
  import opened GrpcRuns

  // The five codes by which a target shows itself unhealthy. All others are the caller's fault or an answer.
  predicate IsUnhealthy(o: Outcome) {
    match o
    case Success => false
    case Failure(code) => code.Unavailable? || code.DeadlineExceeded? || code.Internal? || code.Unknown? || code.DataLoss?
  }

  lemma BlameMeans(o: Outcome)
    ensures BlamesTarget(o) <==> IsUnhealthy(o)
  {
  }

  // An end that reached breaker b is the report of a call that returned, and says what its result was.
  ghost predicate IsReport(calls: map<nat, Call>, b: nat, e: BreakerRuns.Event) {
    e.End? ==>
      && e.id in calls && calls[e.id].phase.Returned? && calls[e.id].phase.b == b
      && (e.failure <==> IsUnhealthy(calls[e.id].phase.r))
  }

  ghost predicate AllReports(calls: map<nat, Call>, b: nat, history: seq<BreakerRuns.Event>) {
    forall i | 0 <= i < |history| :: IsReport(calls, b, history[i])
  }

  ghost predicate Reported(s: State) {
    |s.histories| == |s.breakers| && forall b | 0 <= b < |s.histories| :: AllReports(s.calls, b, s.histories[b])
  }

  // A call that returned stays as it is.
  lemma ReturnedStays(s: State, e: Event, id: nat)
    requires Enabled(s, e) && id in s.calls && s.calls[id].phase.Returned?
    ensures id in Next(s, e).calls && Next(s, e).calls[id] == s.calls[id]
  {
    hide BudgetOf, Admits, Before, After, CallConfig, BlamesTarget, AfterAttempt, AfterWait;
  }

  lemma ReportsStay(s: State, e: Event, b: nat, history: seq<BreakerRuns.Event>)
    requires Enabled(s, e) && AllReports(s.calls, b, history)
    ensures AllReports(Next(s, e).calls, b, history)
  {
    hide Next, Enabled;
    forall i | 0 <= i < |history|
      ensures IsReport(Next(s, e).calls, b, history[i])
    {
      assert IsReport(s.calls, b, history[i]);
      if history[i].End? {
        ReturnedStays(s, e, history[i].id);
      }
    }
  }

  // What a step adds to a history is a report too.
  lemma HistoryGrows(s: State, e: Event, b: nat)
    requires Enabled(s, e)
    ensures
      var s' := Next(s, e);
      && |s'.histories| == |s'.breakers|
      && (|s.histories| <= b < |s'.histories| ==> s'.histories[b] == [])
      && (b < |s'.histories| && b < |s.histories| ==>
            || s'.histories[b] == s.histories[b]
            || exists x :: s'.histories[b] == s.histories[b] + [x] && IsReport(s'.calls, b, x))
  {
    hide BudgetOf, Admits, Before, After, CallConfig, BlamesTarget, AfterAttempt, AfterWait, IsUnhealthy;
    var s' := Next(s, e);
    match e {
      case Begin(id, now) =>
        assert IsReport(s'.calls, b, BreakerRuns.Begin(id, now));
      case End(id, now) =>
        var p := s.calls[id].phase;
        BlameMeans(p.loop.r);
        assert b == p.b ==> IsReport(s'.calls, b, BreakerRuns.End(id, now, BlamesTarget(p.loop.r)));
      case Reset(target, now) =>
        assert IsReport(s'.calls, b, BreakerRuns.Reset(now));
      case _ =>
    }
  }

  lemma ReportsSnoc(calls: map<nat, Call>, b: nat, history: seq<BreakerRuns.Event>, x: BreakerRuns.Event)
    requires AllReports(calls, b, history) && IsReport(calls, b, x)
    ensures AllReports(calls, b, history + [x])
  {
    hide IsReport;
  }

  lemma NextKeepsReported(s: State, e: Event)
    requires Reported(s) && Enabled(s, e)
    ensures Reported(Next(s, e))
  {
    hide Next, Enabled, AllReports, IsReport;
    var s' := Next(s, e);
    HistoryGrows(s, e, 0);
    forall b | 0 <= b < |s'.histories|
      ensures AllReports(s'.calls, b, s'.histories[b])
    {
      HistoryGrows(s, e, b);
      if b >= |s.histories| {
        NoReports(s'.calls, b);
      } else {
        ReportsStay(s, e, b, s.histories[b]);
        if s'.histories[b] != s.histories[b] {
          var x :| s'.histories[b] == s.histories[b] + [x] && IsReport(s'.calls, b, x);
          ReportsSnoc(s'.calls, b, s.histories[b], x);
        }
      }
    }
  }

  lemma NoReports(calls: map<nat, Call>, b: nat)
    ensures AllReports(calls, b, [])
  {
  }

  lemma {:induction false} RunKeepsReported(start: int, events: seq<Event>)
    requires Run(start, events).Some?
    ensures Reported(Run(start, events).value)
  {
    hide Reported, Next, Enabled;
    if events == [] {
      NothingReported(start);
    } else {
      RunKeepsReported(start, events[..|events| - 1]);
      NextKeepsReported(Run(start, events[..|events| - 1]).value, events[|events| - 1]);
    }
  }

  lemma NothingReported(start: int)
    ensures Reported(Initial(start))
  {
  }

  // ----- One breaker -----

  predicate Harmless(history: seq<BreakerRuns.Event>) {
    forall i | 0 <= i < |history| && history[i].End? :: !history[i].failure
  }

  lemma HarmlessStep(c: Config, s: BreakerRuns.State, e: BreakerRuns.Event)
    requires Sound(c) && BreakerRuns.Enabled(s, e) && s.core.mode == Closed && s.core.failures == 0
    requires e.End? ==> !e.failure
    ensures BreakerRuns.Next(c, s, e).core.mode == Closed && BreakerRuns.Next(c, s, e).core.failures == 0
  {
  }

  lemma {:induction false} HarmlessStaysClosed(c: Config, start: int, history: seq<BreakerRuns.Event>)
    requires Sound(c) && BreakerRuns.Run(c, start, history).Some? && Harmless(history)
    ensures var core := BreakerRuns.Run(c, start, history).value.core; core.mode == Closed && core.failures == 0
  {
    hide BreakerRuns.Next, BreakerRuns.Enabled;
    if history == [] {
    } else {
      var front, e := history[..|history| - 1], history[|history| - 1];
      assert Harmless(front);
      HarmlessStaysClosed(c, start, front);
      HarmlessStep(c, BreakerRuns.Run(c, start, front).value, e);
    }
  }

  // The calls that reported, in order.
  function Ends(history: seq<BreakerRuns.Event>): (ids: seq<nat>)
    ensures |ids| <= |history|
  {
    if history == [] then []
    else
      var e := history[|history| - 1];
      Ends(history[..|history| - 1]) + if e.End? then [e.id] else []
  }

  // Failures only, and no Reset.
  predicate Failing(history: seq<BreakerRuns.Event>) {
    forall i | 0 <= i < |history| :: !history[i].Reset? && (history[i].End? ==> history[i].failure)
  }

  lemma FailingStep(c: Config, s: BreakerRuns.State, e: BreakerRuns.Event, k: nat)
    requires Sound(c) && BreakerRuns.Enabled(s, e) && s.core.mode == Closed && s.core.failures == k < c.maxFailures
    requires !e.Reset? && (e.End? ==> e.failure)
    ensures
      var core := BreakerRuns.Next(c, s, e).core;
      if e.Begin? then core.mode == Closed && core.failures == k
      else if k + 1 < c.maxFailures then core.mode == Closed && core.failures == k + 1
      else core.mode == Open
  {
  }

  // Fewer than maxFailures leave it closed and counting; the one that makes it maxFailures opens it.
  lemma {:induction false} FailuresOpen(c: Config, start: int, history: seq<BreakerRuns.Event>)
    requires Sound(c) && BreakerRuns.Run(c, start, history).Some? && Failing(history)
    ensures
      var core := BreakerRuns.Run(c, start, history).value.core;
      && (|Ends(history)| < c.maxFailures ==> core.mode == Closed && core.failures == |Ends(history)|)
      && (|Ends(history)| == c.maxFailures && history[|history| - 1].End? ==> core.mode == Open)
  {
    hide BreakerRuns.Next, BreakerRuns.Enabled;
    if history == [] {
    } else {
      var front, e := history[..|history| - 1], history[|history| - 1];
      assert Failing(front);
      FailuresOpen(c, start, front);
      if |Ends(front)| < c.maxFailures {
        FailingStep(c, BreakerRuns.Run(c, start, front).value, e, |Ends(front)|);
      }
    }
  }

  // ----- A target -----

  /** One rate-limited or mistaken caller blocks nobody: while no call to a target returns one of the five codes, whatever
      else calls to it return and however they interleave, its breaker is closed with no failure counted and lets
      every call through. */
  lemma HealthyTargetStaysClosed(start: int, events: seq<Event>, b: nat, now: int)
    requires Run(start, events).Some? && b < |Run(start, events).value.breakers|
    requires
      var s := Run(start, events).value;
      && b < |s.names|
      && forall id | id in s.calls && s.calls[id].target == s.names[b] && s.calls[id].phase.Returned? ::
           !IsUnhealthy(s.calls[id].phase.r)
    ensures
      var core := Run(start, events).value.breakers[b];
      core.mode == Closed && core.failures == 0 && Admits(CallConfig(), core, now)
  {
    hide Run, BreakerRuns.Run, IsUnhealthy;
    RunKeepsReported(start, events);
    RunKeepsRegistered(start, events);
    EveryBreakerRuns(start, events, b);
    var s := Run(start, events).value;
    var history := s.histories[b];
    forall i | 0 <= i < |history| && history[i].End?
      ensures !history[i].failure
    {
      assert AllReports(s.calls, b, history) && IsReport(s.calls, b, history[i]);
    }
    HarmlessStaysClosed(CallConfig(), start, history);
  }

  /** And an unhealthy target is cut off: if the first five calls a new breaker hears from all returned one of the five
      codes, in any mixture, it is open right after the fifth. */
  lemma FiveFailuresOpen(start: int, events: seq<Event>, b: nat)
    requires Run(start, events).Some? && b < |Run(start, events).value.histories|
    requires
      var s := Run(start, events).value;
      var history := s.histories[b];
      && b < |s.breakers|
      && (forall i | 0 <= i < |history| :: !history[i].Reset?)
      && |Ends(history)| == 5 && history[|history| - 1].End?
      && forall id | id in s.calls && s.calls[id].phase.Returned? && s.calls[id].phase.b == b ::
           IsUnhealthy(s.calls[id].phase.r)
    ensures Run(start, events).value.breakers[b].mode == Open
  {
    hide Run, BreakerRuns.Run, IsUnhealthy, Ends;
    RunKeepsReported(start, events);
    EveryBreakerRuns(start, events, b);
    var s := Run(start, events).value;
    var history := s.histories[b];
    forall i | 0 <= i < |history|
      ensures !history[i].Reset? && (history[i].End? ==> history[i].failure)
    {
      assert AllReports(s.calls, b, history) && IsReport(s.calls, b, history[i]);
    }
    FailuresOpen(CallConfig(), start, history);
  }
}
