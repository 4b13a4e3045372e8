/** From wherever a run has taken it, a breaker can be closed again without a Reset. */
module BreakerRecovery {
  import opened Breaker
  import opened BreakerRuns

  predicate NoReset(events: seq<Event>) {
    forall i | 0 <= i < |events| :: !events[i].Reset?
  }

  lemma {:induction false} Bound(ids: set<nat>) returns (top: nat)
    ensures forall id | id in ids :: id < top
  {
    if ids == {} {
      top := 0;
    } else {
      var x :| x in ids;
      var rest := Bound(ids - {x});
      top := if x < rest then rest else x + 1;
      assert forall id | id in ids :: id == x || id in ids - {x};
    }
  }

  lemma FreshId(inFlight: map<nat, nat>) returns (id: nat)
    ensures id !in inFlight
  {
    id := Bound(inFlight.Keys);
  }

  // A success in a half-open breaker closes it or brings it one success closer.
  lemma SuccessHelps(c: Config, s: State, id: nat)
    requires s.core.mode == HalfOpen && id in s.inFlight
    ensures
      var ev := End(id, s.clock, false);
      var s' := Next(c, s, ev);
      && Enabled(s, ev)
      && (s'.core.mode == Closed || (s'.core.mode == HalfOpen && s'.core.successes == s.core.successes + 1))
  {
  }

  lemma ProbeEnters(c: Config, s: State, id: nat)
    requires Bookkeeping(c, s) && s.core.mode == HalfOpen && Admits(c, s.core, s.clock) && id !in s.inFlight
    ensures
      var ev := Begin(id, s.clock);
      var s' := Next(c, s, ev);
      && Enabled(s, ev) && id in s'.inFlight && s'.clock == s.clock
      && s'.core.mode == HalfOpen && s'.core.successes == s.core.successes
  {
  }

  // In a half-open state a probe is in flight or can be sent; its success then helps.
  lemma OneMoreSuccess(c: Config, start: int, events: seq<Event>) returns (more: seq<Event>)
    requires Sound(c) && Run(c, start, events).Some? && Run(c, start, events).value.core.mode == HalfOpen
    ensures NoReset(more) && Run(c, start, events + more).Some?
    ensures
      var s, s' := Run(c, start, events).value, Run(c, start, events + more).value;
      s'.core.mode == Closed || (s'.core.mode == HalfOpen && s'.core.successes == s.core.successes + 1)
  {
    hide Run, Next, Enabled, Inv, Admits, Bookkeeping;
    var s := Run(c, start, events).value;
    if id :| id in s.inFlight {
      SuccessHelps(c, s, id);
      more := [End(id, s.clock, false)];
      RunSnoc(c, start, events, End(id, s.clock, false));
    } else {
      AdmitsWhenIdle(c, start, events);
      var id := FreshId(s.inFlight);
      ProbeEnters(c, s, id);
      RunSnoc(c, start, events, Begin(id, s.clock));
      var s' := Next(c, s, Begin(id, s.clock));
      SuccessHelps(c, s', id);
      RunSnoc(c, start, events + [Begin(id, s.clock)], End(id, s.clock, false));
      more := [Begin(id, s.clock), End(id, s.clock, false)];
      assert events + more == events + [Begin(id, s.clock)] + [End(id, s.clock, false)];
    }
  }

  lemma AdmitsWhenIdle(c: Config, start: int, events: seq<Event>)
    requires Sound(c) && Run(c, start, events).Some?
    requires
      var s := Run(c, start, events).value;
      s.core.mode == HalfOpen && forall id :: id !in s.inFlight
    ensures
      var s := Run(c, start, events).value;
      Admits(c, s.core, s.clock) && Bookkeeping(c, s)
  {
    hide Run;
    var s := Run(c, start, events).value;
    NeverWedged(c, start, events, s.clock);
    RunKeepsInv(c, start, events);
    assert Own(s) == {};
  }

  lemma {:induction false} HalfOpenCloses(c: Config, start: int, events: seq<Event>, missing: nat) returns (more: seq<Event>)
    requires Sound(c) && Run(c, start, events).Some? && Run(c, start, events).value.core.mode == HalfOpen
    requires missing == c.maxHalfOpenCalls - Run(c, start, events).value.core.successes
    ensures NoReset(more) && Run(c, start, events + more).Some?
    ensures Run(c, start, events + more).value.core.mode == Closed
    decreases missing
  {
    hide Run;
    more := OneMoreSuccess(c, start, events);
    var s' := Run(c, start, events + more).value;
    if s'.core.mode == HalfOpen {
      SuccessesAreFew(c, start, events);
      SuccessesAreFew(c, start, events + more);
      var rest := HalfOpenCloses(c, start, events + more, missing - 1);
      assert events + more + rest == events + (more + rest);
      more := more + rest;
    }
  }

  lemma SuccessesAreFew(c: Config, start: int, events: seq<Event>)
    requires Sound(c) && Run(c, start, events).Some? && Run(c, start, events).value.core.mode == HalfOpen
    ensures Run(c, start, events).value.core.successes < c.maxHalfOpenCalls
  {
    hide Run;
    CountersAreTrue(c, start, events);
  }

  lemma TimeoutOpens(c: Config, s: State, id: nat, now: int)
    requires s.core.mode == Open && s.clock <= now && now - s.core.lastFailureTime > c.timeout && id !in s.inFlight
    ensures Enabled(s, Begin(id, now)) && Next(c, s, Begin(id, now)).core.mode == HalfOpen
  {
  }

  /** Recoverability: from every reachable state, whatever is in flight, some continuation without a Reset closes the
      breaker again. */
  lemma Recoverable(c: Config, start: int, events: seq<Event>) returns (more: seq<Event>)
    requires Sound(c) && Run(c, start, events).Some?
    ensures NoReset(more) && Run(c, start, events + more).Some?
    ensures Run(c, start, events + more).value.core.mode == Closed
  {
    hide Run, Next, Enabled;
    var s := Run(c, start, events).value;
    match s.core.mode {
      case Closed =>
        more := [];
        assert events + more == events;
      case HalfOpen =>
        SuccessesAreFew(c, start, events);
        more := HalfOpenCloses(c, start, events, c.maxHalfOpenCalls - s.core.successes);
      case Open =>
        var due := s.core.lastFailureTime + c.timeout + 1;
        var now := if s.clock < due then due else s.clock;
        var id := FreshId(s.inFlight);
        TimeoutOpens(c, s, id, now);
        RunSnoc(c, start, events, Begin(id, now));
        var begun := events + [Begin(id, now)];
        SuccessesAreFew(c, start, begun);
        var rest := HalfOpenCloses(c, start, begun, c.maxHalfOpenCalls - Run(c, start, begun).value.core.successes);
        assert begun + rest == events + ([Begin(id, now)] + rest);
        more := [Begin(id, now)] + rest;
    }
  }
}
