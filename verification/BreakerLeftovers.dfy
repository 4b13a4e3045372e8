/**
 Whose successes close a half-open episode: when all that arrives in it is its own, and when a call
 left over from before can count.
 */
module BreakerLeftovers {
  import opened Breaker
  import opened BreakerRuns

  // No completion was recorded for an epoch that has not begun.
  ghost predicate Past(s: State) {
    forall x | x in s.completions :: x.epoch <= s.epoch
  }

  // Everything that arrived in epoch e was admitted in it.
  ghost predicate OwnOnly(h: seq<Completion>, e: nat) {
    forall x | x in h && x.epoch == e :: x.admittedIn == e
  }

  // Epoch e has begun, all that is in flight was admitted since, and all that arrived in it is its own.
  ghost predicate Confined(s: State, e: nat) {
    e <= s.epoch && (forall id | id in s.inFlight :: e <= s.inFlight[id]) && OwnOnly(s.completions, e)
  }

  lemma NextKeepsPast(c: Config, s: State, ev: Event)
    requires Past(s) && Enabled(s, ev)
    ensures Past(Next(c, s, ev))
  {
    hide Before, After, Admits;
  }

  lemma {:induction false} RunKeepsPast(c: Config, start: int, events: seq<Event>)
    requires Run(c, start, events).Some?
    ensures Past(Run(c, start, events).value)
  {
    hide Past, Next, Enabled;
    if events == [] {
      NothingPast(start);
    } else {
      RunKeepsPast(c, start, events[..|events| - 1]);
      NextKeepsPast(c, Run(c, start, events[..|events| - 1]).value, events[|events| - 1]);
    }
  }

  lemma NothingPast(start: int)
    ensures Past(Initial(start))
  {
  }

  lemma NextKeepsConfined(c: Config, s: State, ev: Event, e: nat)
    requires Bookkeeping(c, s) && Confined(s, e) && Enabled(s, ev)
    ensures Confined(Next(c, s, ev), e)
  {
    hide Before, After, Admits;
  }

  lemma {:induction false} RunKeepsConfined(c: Config, start: int, events: seq<Event>, more: seq<Event>, e: nat)
    requires Sound(c) && Run(c, start, events).Some? && Confined(Run(c, start, events).value, e)
    requires Run(c, start, events + more).Some?
    ensures Confined(Run(c, start, events + more).value, e)
  {
    hide Confined, Next, Enabled, Inv;
    if more == [] {
      assert events + more == events;
    } else {
      var front := more[..|more| - 1];
      assert (events + more)[..|events + more| - 1] == events + front;
      RunKeepsConfined(c, start, events, front, e);
      RunKeepsInv(c, start, events + front);
      InvKeepsBooks(c, Run(c, start, events + front).value);
      NextKeepsConfined(c, Run(c, start, events + front).value, more[|more| - 1], e);
    }
  }

  lemma InvKeepsBooks(c: Config, s: State)
    requires Inv(c, s)
    ensures Bookkeeping(c, s)
  {
  }

  // The call that turns an open breaker half-open, with nothing else in flight.
  lemma EpisodeStartsOwn(c: Config, s: State, id: nat, now: int)
    requires Bookkeeping(c, s) && Past(s) && Enabled(s, Begin(id, now))
    requires s.core.mode == Open && Admits(c, s.core, now) && s.inFlight == map[]
    ensures Confined(Next(c, s, Begin(id, now)), s.epoch + 1)
  {
  }

  // With a leftover in flight, its success counts like any other: it closes the breaker or moves it one closer.
  lemma LeftoverCounts(c: Config, s: State, id: nat, now: int, leftover: nat)
    requires Sound(c) && Bookkeeping(c, s) && Enabled(s, Begin(id, now))
    requires s.core.mode == Open && Admits(c, s.core, now) && leftover in s.inFlight
    ensures
      var s' := Next(c, s, Begin(id, now));
      var ev := End(leftover, now, false);
      var s'' := Next(c, s', ev);
      && Enabled(s', ev)
      && s'.epoch == s.epoch + 1
      && !OwnOnly(s''.completions, s.epoch + 1)
      && (s''.core.mode == Closed || s''.core.successes == s'.core.successes + 1)
  {
    var s' := Next(c, s, Begin(id, now));
    var s'' := Next(c, s', End(leftover, now, false));
    var x := s''.completions[|s''.completions| - 1];
    assert x in s''.completions && x == Completion(s.epoch + 1, s.inFlight[leftover], false);
  }

  // Whatever happens from here on, all that arrives in epoch e is its own.
  ghost predicate StaysOwn(c: Config, start: int, events: seq<Event>, e: nat) {
    forall more: seq<Event> | Run(c, start, events + more).Some? ::
      OwnOnly(Run(c, start, events + more).value.completions, e)
  }

  lemma OwnIfAlone(c: Config, start: int, events: seq<Event>, id: nat, now: int, more: seq<Event>)
    requires Sound(c) && Run(c, start, events).Some? && Enabled(Run(c, start, events).value, Begin(id, now))
    requires
      var s := Run(c, start, events).value;
      s.core.mode == Open && Admits(c, s.core, now) && s.inFlight == map[]
    requires Run(c, start, events + [Begin(id, now)] + more).Some?
    ensures Confined(Run(c, start, events + [Begin(id, now)] + more).value, Run(c, start, events).value.epoch + 1)
  {
    hide *;
    var s := Run(c, start, events).value;
    RunKeepsInv(c, start, events);
    InvKeepsBooks(c, s);
    RunKeepsPast(c, start, events);
    EpisodeStartsOwn(c, s, id, now);
    RunSnoc(c, start, events, Begin(id, now));
    RunKeepsConfined(c, start, events + [Begin(id, now)], more, s.epoch + 1);
  }

  /** Exactly when the successes of a half-open episode are its own, known at the moment it begins: when nothing is in
      flight then. With a single call still out, some continuation counts it. */
  lemma EpisodeIsOwnIff(c: Config, start: int, events: seq<Event>, id: nat, now: int)
    requires Sound(c) && Run(c, start, events).Some? && Enabled(Run(c, start, events).value, Begin(id, now))
    requires
      var s := Run(c, start, events).value;
      s.core.mode == Open && Admits(c, s.core, now)
    ensures
      var s := Run(c, start, events).value;
      s.inFlight == map[] <==> StaysOwn(c, start, events + [Begin(id, now)], s.epoch + 1)
  {
    hide Run, Next, Enabled, Admits, Inv, OwnOnly;
    var s, begun := Run(c, start, events).value, events + [Begin(id, now)];
    if s.inFlight == map[] {
      forall more: seq<Event> | Run(c, start, begun + more).Some?
        ensures OwnOnly(Run(c, start, begun + more).value.completions, s.epoch + 1)
      {
        OwnIfAlone(c, start, events, id, now, more);
      }
    } else {
      var leftover :| leftover in s.inFlight;
      RunKeepsInv(c, start, events);
      InvKeepsBooks(c, s);
      LeftoverCounts(c, s, id, now, leftover);
      RunSnoc(c, start, events, Begin(id, now));
      RunSnoc(c, start, begun, End(leftover, now, false));
    }
  }

  lemma {:induction false} OwnOnlyCounts(h: seq<Completion>, e: nat)
    requires OwnOnly(h, e)
    ensures OwnArrived(h, e) == Arrived(h, e)
  {
    if h == [] || h[|h| - 1].epoch != e {
    } else {
      assert h[|h| - 1] in h;
      OwnOnlyCounts(h[..|h| - 1], e);
    }
  }

  /** So an episode that began with nothing in flight closes on maxHalfOpenCalls successes of its own probes. */
  lemma ClosingIsOwn(c: Config, start: int, events: seq<Event>, id: nat, now: int, more: seq<Event>, ev: Event)
    requires Sound(c) && Run(c, start, events).Some? && Enabled(Run(c, start, events).value, Begin(id, now))
    requires
      var s := Run(c, start, events).value;
      s.core.mode == Open && Admits(c, s.core, now) && s.inFlight == map[]
    requires Run(c, start, events + [Begin(id, now)] + more).Some?
    requires
      var s, t := Run(c, start, events).value, Run(c, start, events + [Begin(id, now)] + more).value;
      && t.epoch == s.epoch + 1 && t.core.mode == HalfOpen
      && Enabled(t, ev) && !ev.Reset? && Next(c, t, ev).core.mode == Closed
    ensures
      var s, t := Run(c, start, events).value, Run(c, start, events + [Begin(id, now)] + more).value;
      OwnArrived(Next(c, t, ev).completions, s.epoch + 1) == c.maxHalfOpenCalls
  {
    hide *;
    var e := Run(c, start, events).value.epoch + 1;
    var all := events + [Begin(id, now)] + more;
    var t := Run(c, start, all).value;
    ClosingTakesSuccesses(c, start, all, ev);
    RunSnoc(c, start, all, ev);
    assert all + [ev] == events + [Begin(id, now)] + (more + [ev]);
    OwnIfAlone(c, start, events, id, now, more + [ev]);
    ConfinedIsOwn(Next(c, t, ev), e);
    OwnOnlyCounts(Next(c, t, ev).completions, e);
  }

  lemma ConfinedIsOwn(s: State, e: nat)
    requires Confined(s, e)
    ensures OwnOnly(s.completions, e)
  {
  }
}
