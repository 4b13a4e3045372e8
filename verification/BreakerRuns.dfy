/**
 Whole runs of one breaker shared by any number of callers. A call admitted in one epoch
 (a stay in one mode) may complete in any later one, so completions left over from an
 earlier mode reach the breaker in a later mode.
 */
module BreakerRuns {
  import opened Wrappers
  import opened Breaker

  datatype Event =
    | Begin(id: nat, now: int)
    | End(id: nat, now: int, failure: bool)
    | Reset(now: int)

  // A completion: the epoch it arrived in, the epoch its call was admitted in, its outcome.
  datatype Completion = Completion(epoch: nat, admittedIn: nat, failure: bool)

  // The breaker plus what an observer of the run would write down. modes[e] and admissions[e]
  // are the mode of epoch e and the number of calls admitted in it; openedAt is the time of the
  // latest opening since the last Reset.
  datatype State = State(
    core: Core,
    epoch: nat,
    inFlight: map<nat, nat>,
    completions: seq<Completion>,
    modes: seq<Mode>,
    admissions: seq<nat>,
    openedAt: Option<int>,
    clock: int)

  function Initial(now: int): State {
    State(FRESH, 0, map[], [], [Closed], [0], None, now)
  }

  predicate Enabled(s: State, e: Event) {
    && s.clock <= e.now
    && (e.Begin? ==> e.id !in s.inFlight)
    && (e.End? ==> e.id in s.inFlight)
  }

  // Moves to a new core. A mode change, and every Reset, starts a new epoch.
  function Moved(s: State, core: Core, newEpoch: bool, now: int): State {
    var s' := s.(core := core, clock := now,
                 openedAt := if core.mode == Open && s.core.mode != Open then Some(now) else s.openedAt);
    if newEpoch
    then s'.(epoch := s.epoch + 1, modes := s.modes + [core.mode], admissions := s.admissions + [0])
    else s'
  }

  function Admitted(s: State, id: nat): State {
    if s.epoch < |s.admissions|
    then s.(inFlight := s.inFlight[id := s.epoch],
            admissions := s.admissions[s.epoch := s.admissions[s.epoch] + 1])
    else s
  }

  function Next(c: Config, s: State, e: Event): State {
    match e
    case Begin(id, now) =>
      var core := Before(c, s.core, now);
      var moved := Moved(s, core, core.mode != s.core.mode, now);
      if Admits(c, s.core, now) then Admitted(moved, id) else moved
    case End(id, now, failure) =>
      var core := After(c, s.core, now, failure);
      var admittedIn := if id in s.inFlight then s.inFlight[id] else 0;
      Moved(s, core, core.mode != s.core.mode, now)
        .(inFlight := s.inFlight - {id},
          completions := s.completions + [Completion(s.epoch, admittedIn, failure)])
    case Reset(now) => Moved(s, ToClosed(s.core), true, now).(openedAt := None)
  }

  function Run(c: Config, start: int, events: seq<Event>): Option<State> {
    if events == [] then Some(Initial(start))
    else
      var before := Run(c, start, events[..|events| - 1]);
      if before.Some? && Enabled(before.value, events[|events| - 1])
      then Some(Next(c, before.value, events[|events| - 1]))
      else None
  }

  // The completions that arrived in epoch e are the last ones: how many there are.
  function Arrived(h: seq<Completion>, e: nat): nat {
    if h == [] || h[|h| - 1].epoch != e then 0 else 1 + Arrived(h[..|h| - 1], e)
  }

  // How many of them are of calls admitted in e as well.
  function OwnArrived(h: seq<Completion>, e: nat): nat {
    if h == [] || h[|h| - 1].epoch != e then 0
    else OwnArrived(h[..|h| - 1], e) + if h[|h| - 1].admittedIn == e then 1 else 0
  }

  // How many of them failed.
  function Failed(h: seq<Completion>, e: nat): nat {
    if h == [] || h[|h| - 1].epoch != e then 0
    else Failed(h[..|h| - 1], e) + if h[|h| - 1].failure then 1 else 0
  }

  // The current streak: trailing failures, in this epoch, with no success after them.
  function Streak(h: seq<Completion>, e: nat): nat {
    if h == [] || h[|h| - 1].epoch != e || !h[|h| - 1].failure then 0 else 1 + Streak(h[..|h| - 1], e)
  }

  // The calls admitted in the present epoch that have not completed.
  function Own(s: State): set<nat> {
    OfEpoch(s.inFlight, s.epoch)
  }

  function OfEpoch(inFlight: map<nat, nat>, e: nat): set<nat> {
    set id | id in inFlight && inFlight[id] == e
  }

  ghost predicate Bookkeeping(c: Config, s: State) {
    && |s.modes| == |s.admissions| == s.epoch + 1
    && s.modes[s.epoch] == s.core.mode
    && (forall e | 0 <= e <= s.epoch && s.modes[e] == HalfOpen :: s.admissions[e] <= c.maxHalfOpenCalls + 1)
    && (forall id | id in s.inFlight :: s.inFlight[id] <= s.epoch)
    && (s.completions != [] ==> s.completions[|s.completions| - 1].epoch <= s.epoch)
  }

  ghost predicate Truthful(c: Config, s: State) {
    match s.core.mode
    case Closed => s.core.failures == Streak(s.completions, s.epoch) < c.maxFailures
    case Open => s.core.failures == c.maxFailures
    case HalfOpen =>
      && s.core.failures == c.maxFailures
      && s.core.successes == Arrived(s.completions, s.epoch) < c.maxHalfOpenCalls
      && Failed(s.completions, s.epoch) == 0
  }

  ghost predicate Probes(c: Config, s: State) {
    s.core.mode == HalfOpen ==>
      && s.core.halfOpenCalls <= c.maxHalfOpenCalls
      && s.epoch < |s.admissions| && s.admissions[s.epoch] == s.core.halfOpenCalls + 1
      && |Own(s)| + OwnArrived(s.completions, s.epoch) == s.core.halfOpenCalls + 1
  }

  ghost predicate Timed(c: Config, s: State) {
    && (s.core.mode == Open ==> s.openedAt == Some(s.core.lastFailureTime))
    && (s.core.mode != Open && s.openedAt.Some? ==> s.clock - s.openedAt.value > c.timeout)
  }

  ghost predicate Inv(c: Config, s: State) {
    Bookkeeping(c, s) && Truthful(c, s) && Probes(c, s) && Timed(c, s)
  }

  // Nothing has arrived yet in an epoch that has only begun.
  lemma NewEpochIsEmpty(h: seq<Completion>, e: nat)
    requires h != [] ==> h[|h| - 1].epoch < e
    ensures Arrived(h, e) == OwnArrived(h, e) == Failed(h, e) == Streak(h, e) == 0
  {
  }

  lemma CountersSnoc(h: seq<Completion>, x: Completion, e: nat)
    requires x.epoch == e
    ensures Arrived(h + [x], e) == Arrived(h, e) + 1
    ensures OwnArrived(h + [x], e) == OwnArrived(h, e) + if x.admittedIn == e then 1 else 0
    ensures Failed(h + [x], e) == Failed(h, e) + if x.failure then 1 else 0
    ensures Streak(h + [x], e) == if x.failure then Streak(h, e) + 1 else 0
  {
    assert (h + [x])[..|h|] == h;
  }

  lemma {:induction false} OwnAtMostArrived(h: seq<Completion>, e: nat)
    ensures OwnArrived(h, e) <= Arrived(h, e)
  {
    if h != [] && h[|h| - 1].epoch == e { OwnAtMostArrived(h[..|h| - 1], e); }
  }

  lemma BeginKeepsProbes(c: Config, s: State, id: nat, now: int)
    requires Sound(c) && Inv(c, s) && Enabled(s, Begin(id, now))
    ensures Probes(c, Next(c, s, Begin(id, now)))
  {
    var s' := Next(c, s, Begin(id, now));
    if s'.core.mode == HalfOpen {
      if s.core.mode == Open {
        NewEpochIsEmpty(s.completions, s'.epoch);
        assert Own(s') == {id};
      } else if Admits(c, s.core, now) {
        assert Own(s') == Own(s) + {id};
      } else {
        assert Own(s') == Own(s);
      }
    }
  }

  lemma BeginKeepsBookkeeping(c: Config, s: State, id: nat, now: int)
    requires Sound(c) && Bookkeeping(c, s) && Probes(c, s) && Enabled(s, Begin(id, now))
    ensures Bookkeeping(c, Next(c, s, Begin(id, now)))
  {
  }

  lemma BeginKeepsTruthful(c: Config, s: State, id: nat, now: int)
    requires Sound(c) && Bookkeeping(c, s) && Truthful(c, s) && Enabled(s, Begin(id, now))
    ensures Truthful(c, Next(c, s, Begin(id, now)))
  {
    NewEpochIsEmpty(s.completions, s.epoch + 1);
  }

  lemma BeginKeepsTimed(c: Config, s: State, id: nat, now: int)
    requires Sound(c) && Timed(c, s) && Enabled(s, Begin(id, now))
    ensures Timed(c, Next(c, s, Begin(id, now)))
  {
  }

  lemma OwnWithout(inFlight: map<nat, nat>, e: nat, id: nat)
    requires id in inFlight
    ensures |OfEpoch(inFlight - {id}, e)| == |OfEpoch(inFlight, e)| - if inFlight[id] == e then 1 else 0
  {
    var before, after := OfEpoch(inFlight, e), OfEpoch(inFlight - {id}, e);
    if inFlight[id] == e {
      assert before == after + {id};
    } else {
      assert before == after;
    }
  }

  // Inside one episode, a completion changes only the success count and the in-flight set.
  lemma EndInEpisode(c: Config, s: State, id: nat, now: int, failure: bool)
    requires Enabled(s, End(id, now, failure)) && Next(c, s, End(id, now, failure)).core.mode == HalfOpen
    ensures var s' := Next(c, s, End(id, now, failure));
      && s.core.mode == HalfOpen && s'.core.halfOpenCalls == s.core.halfOpenCalls
      && s'.epoch == s.epoch && s'.admissions == s.admissions && s'.inFlight == s.inFlight - {id}
      && s'.completions == s.completions + [Completion(s.epoch, s.inFlight[id], failure)]
  {
  }

  lemma EndKeepsProbes(c: Config, s: State, id: nat, now: int, failure: bool)
    requires Probes(c, s) && Enabled(s, End(id, now, failure))
    ensures Probes(c, Next(c, s, End(id, now, failure)))
  {
    var s' := Next(c, s, End(id, now, failure));
    if s'.core.mode == HalfOpen {
      EndInEpisode(c, s, id, now, failure);
      CountersSnoc(s.completions, Completion(s.epoch, s.inFlight[id], failure), s.epoch);
      OwnWithout(s.inFlight, s.epoch, id);
    }
  }

  lemma EndKeepsBookkeeping(c: Config, s: State, id: nat, now: int, failure: bool)
    requires Sound(c) && Bookkeeping(c, s) && Enabled(s, End(id, now, failure))
    ensures Bookkeeping(c, Next(c, s, End(id, now, failure)))
  {
  }

  lemma EndKeepsTruthful(c: Config, s: State, id: nat, now: int, failure: bool)
    requires Sound(c) && Truthful(c, s) && Enabled(s, End(id, now, failure))
    ensures Truthful(c, Next(c, s, End(id, now, failure)))
  {
    var x := Completion(s.epoch, s.inFlight[id], failure);
    CountersSnoc(s.completions, x, s.epoch);
    NewEpochIsEmpty(s.completions + [x], s.epoch + 1);
  }

  lemma EndKeepsTimed(c: Config, s: State, id: nat, now: int, failure: bool)
    requires Sound(c) && Timed(c, s) && Enabled(s, End(id, now, failure))
    ensures Timed(c, Next(c, s, End(id, now, failure)))
  {
  }

  lemma NextKeepsInv(c: Config, s: State, e: Event)
    requires Sound(c) && Inv(c, s) && Enabled(s, e)
    ensures Inv(c, Next(c, s, e))
  {
    match e
    case Begin(id, now) =>
      BeginKeepsBookkeeping(c, s, id, now);
      BeginKeepsTruthful(c, s, id, now);
      BeginKeepsProbes(c, s, id, now);
      BeginKeepsTimed(c, s, id, now);
    case End(id, now, failure) =>
      EndKeepsBookkeeping(c, s, id, now, failure);
      EndKeepsTruthful(c, s, id, now, failure);
      EndKeepsProbes(c, s, id, now, failure);
      EndKeepsTimed(c, s, id, now, failure);
    case Reset(now) =>
      NewEpochIsEmpty(s.completions, s.epoch + 1);
  }

  lemma {:induction false} RunKeepsInv(c: Config, start: int, events: seq<Event>)
    requires Sound(c) && Run(c, start, events).Some?
    ensures Inv(c, Run(c, start, events).value)
  {
    if events == [] {
    } else {
      RunKeepsInv(c, start, events[..|events| - 1]);
      NextKeepsInv(c, Run(c, start, events[..|events| - 1]).value, events[|events| - 1]);
    }
  }

  /** The breaker never wedges: in every reachable half-open state either the next call is admitted, or at
      least two probes admitted in this very episode are still running and will report back. */
  lemma NeverWedged(c: Config, start: int, events: seq<Event>, now: int)
    requires Sound(c) && Run(c, start, events).Some?
    ensures var s := Run(c, start, events).value;
      s.core.mode == HalfOpen ==> Admits(c, s.core, now) || |Own(s)| >= 2
  {
    RunKeepsInv(c, start, events);
    var s := Run(c, start, events).value;
    OwnAtMostArrived(s.completions, s.epoch);
  }

  // Every half-open episode of every run admits at most maxHalfOpenCalls + 1 calls: the one that
  // opened the episode is not counted.
  lemma EpisodeBound(c: Config, start: int, events: seq<Event>, e: nat)
    requires Sound(c) && Run(c, start, events).Some?
    requires e < |Run(c, start, events).value.modes| && Run(c, start, events).value.modes[e] == HalfOpen
    ensures e < |Run(c, start, events).value.admissions|
    ensures Run(c, start, events).value.admissions[e] <= c.maxHalfOpenCalls + 1
  {
    RunKeepsInv(c, start, events);
  }

  /** The counters tell the truth about the history, whatever leftovers arrive when. */
  lemma CountersAreTrue(c: Config, start: int, events: seq<Event>)
    requires Sound(c) && Run(c, start, events).Some?
    ensures var s := Run(c, start, events).value; Truthful(c, s)
  {
    RunKeepsInv(c, start, events);
  }

  lemma ClosingStep(c: Config, s: State, e: Event)
    requires Sound(c) && Truthful(c, s) && Enabled(s, e) && !e.Reset?
    requires s.core.mode == HalfOpen && Next(c, s, e).core.mode == Closed
    ensures e.End? && !e.failure
    ensures Arrived(Next(c, s, e).completions, s.epoch) == c.maxHalfOpenCalls
    ensures Failed(Next(c, s, e).completions, s.epoch) == 0
  {
    if e.End? { CountersSnoc(s.completions, Completion(s.epoch, s.inFlight[e.id], e.failure), s.epoch); }
  }

  /** A half-open episode closes (other than by Reset) only on a success, and then exactly maxHalfOpenCalls
      completions arrived in it, none of them a failure. */
  lemma ClosingTakesSuccesses(c: Config, start: int, events: seq<Event>, e: Event)
    requires Sound(c) && Run(c, start, events).Some? && Enabled(Run(c, start, events).value, e) && !e.Reset?
    requires Run(c, start, events).value.core.mode == HalfOpen
    requires Next(c, Run(c, start, events).value, e).core.mode == Closed
    ensures var s, s' := Run(c, start, events).value, Next(c, Run(c, start, events).value, e);
      && e.End? && !e.failure
      && Arrived(s'.completions, s.epoch) == c.maxHalfOpenCalls
      && Failed(s'.completions, s.epoch) == 0
  {
    hide *;
    CountersAreTrue(c, start, events);
    ClosingStep(c, Run(c, start, events).value, e);
  }

  /** Without a Reset in between, no call is admitted within timeout of an opening, in any later mode. */
  lemma NoAdmissionWithinTimeout(c: Config, start: int, events: seq<Event>, id: nat, now: int)
    requires Sound(c) && Run(c, start, events).Some?
    requires Enabled(Run(c, start, events).value, Begin(id, now)) && Admits(c, Run(c, start, events).value.core, now)
    ensures var s := Run(c, start, events).value; s.openedAt.Some? ==> now - s.openedAt.value > c.timeout
  {
    RunKeepsInv(c, start, events);
  }

  lemma RunSnoc(c: Config, start: int, events: seq<Event>, e: Event)
    requires Run(c, start, events).Some? && Enabled(Run(c, start, events).value, e)
    ensures Run(c, start, events + [e]) == Some(Next(c, Run(c, start, events).value, e))
  {
    assert (events + [e])[..|events|] == events;
  }

  // k calls that fail one after the other.
  function Failing(k: nat): seq<Event> {
    if k == 0 then [] else Failing(k - 1) + [Begin(k, 0)] + [End(k, 0, true)]
  }

  lemma {:induction false} FailingRuns(c: Config, k: nat)
    requires Sound(c) && k <= c.maxFailures
    ensures var s := Run(c, 0, Failing(k));
      && s.Some? && s.value.inFlight == map[] && s.value.clock == 0
      && s.value.core.failures == k
      && s.value.core.mode == (if k < c.maxFailures then Closed else Open)
      && (k == c.maxFailures ==> s.value.core.lastFailureTime == 0)
  {
    if k == 0 {
    } else {
      FailingRuns(c, k - 1);
      RunKeepsInv(c, 0, Failing(k - 1));
      FailOnce(c, Failing(k - 1), Run(c, 0, Failing(k - 1)).value, k);
    }
  }

  lemma FailOnce(c: Config, events: seq<Event>, s: State, k: nat)
    requires Run(c, 0, events) == Some(s) && Inv(c, s)
    requires 0 < k && s.inFlight == map[] && s.clock == 0 && s.core.failures == k - 1 && s.core.mode == Closed
    ensures var s' := Run(c, 0, events + [Begin(k, 0)] + [End(k, 0, true)]);
      && s'.Some? && s'.value.inFlight == map[] && s'.value.clock == 0
      && s'.value.core.failures == k
      && s'.value.core.mode == (if k < c.maxFailures then Closed else Open)
      && s'.value.core.lastFailureTime == 0
  {
    hide Run, Inv;
    RunSnoc(c, 0, events, Begin(k, 0));
    InFlightAfterBegin(c, s, k);
    RunSnoc(c, 0, events + [Begin(k, 0)], End(k, 0, true));
  }

  lemma InFlightAfterBegin(c: Config, s: State, id: nat)
    requires Inv(c, s) && s.core.mode == Closed
    ensures Next(c, s, Begin(id, 0)).inFlight == s.inFlight[id := s.epoch]
  {
  }

  // The breaker trips, the timeout passes, and k probes arrive before any of them returns.
  function Probing(c: Config, k: nat): seq<Event>
    requires Sound(c)
  {
    if k == 0 then Failing(c.maxFailures) else Probing(c, k - 1) + [Begin(k, c.timeout + 1)]
  }

  lemma {:induction false} ProbingRuns(c: Config, k: nat)
    requires Sound(c) && 1 <= k <= c.maxHalfOpenCalls + 1
    ensures var s := Run(c, 0, Probing(c, k));
      && s.Some? && s.value.core.mode == HalfOpen && s.value.core.halfOpenCalls == k - 1
      && s.value.clock == c.timeout + 1
      && (forall id | id in s.value.inFlight :: id <= k)
  {
    hide Run, Inv, Next;
    if k == 1 {
      FailingRuns(c, c.maxFailures);
      assert Probing(c, 0) == Failing(c.maxFailures);
    } else {
      ProbingRuns(c, k - 1);
    }
    RunKeepsInv(c, 0, Probing(c, k - 1));
    ProbeOnce(c, Probing(c, k - 1), Run(c, 0, Probing(c, k - 1)).value, k);
  }

  lemma ProbeOnce(c: Config, events: seq<Event>, s: State, k: nat)
    requires Sound(c) && 0 < k <= c.maxHalfOpenCalls + 1
    requires Run(c, 0, events) == Some(s) && Inv(c, s) && s.clock <= c.timeout + 1
    requires if k == 1 then s.core.mode == Open && s.core.lastFailureTime == 0
             else s.core.mode == HalfOpen && s.core.halfOpenCalls == k - 2
    requires forall id | id in s.inFlight :: id < k
    ensures var s' := Run(c, 0, events + [Begin(k, c.timeout + 1)]);
      && s'.Some? && s'.value.core.mode == HalfOpen && s'.value.core.halfOpenCalls == k - 1
      && s'.value.clock == c.timeout + 1
      && (forall id | id in s'.value.inFlight :: id <= k)
  {
    hide Run, Inv;
    RunSnoc(c, 0, events, Begin(k, c.timeout + 1));
  }

  /** The episode bound is reached under every configuration: maxHalfOpenCalls + 1 probes run at once. */
  lemma EpisodeBoundIsTight(c: Config)
    requires Sound(c)
    ensures var s := Run(c, 0, Probing(c, c.maxHalfOpenCalls + 1));
      && s.Some? && s.value.core.mode == HalfOpen
      && s.value.epoch < |s.value.admissions|
      && s.value.admissions[s.value.epoch] == c.maxHalfOpenCalls + 1
  {
    ProbingRuns(c, c.maxHalfOpenCalls + 1);
    RunKeepsInv(c, 0, Probing(c, c.maxHalfOpenCalls + 1));
  }

  /** The successes that close an episode need not be its own: here the only probe is still running, and a
      call left over from before the breaker opened closes it. */
  lemma LeftoverSuccessCloses(timeout: int)
    requires timeout > 0
    ensures var c, later := Config(1, timeout, 1), timeout + 1;
            var events := [Begin(1, 0), Begin(2, 0), End(1, 0, true), Begin(3, later), End(2, later, false)];
            var s := Run(c, 0, events);
      && s.Some? && s.value.core.mode == Closed && 3 in s.value.inFlight
      && s.value.modes == [Closed, Open, HalfOpen, Closed]
      && OwnArrived(s.value.completions, 2) == 0
  {
    hide Run;
    var c, later := Config(1, timeout, 1), timeout + 1;
    var e1, e2, e3, e4, e5 := Begin(1, 0), Begin(2, 0), End(1, 0, true), Begin(3, later), End(2, later, false);
    TrippedWithLeftover(c);
    RunSnoc(c, 0, [e1, e2, e3], e4);
    RunSnoc(c, 0, [e1, e2, e3] + [e4], e5);
    assert [e1, e2, e3] + [e4] + [e5] == [e1, e2, e3, e4, e5];
  }

  lemma TrippedWithLeftover(c: Config)
    requires c.maxFailures == 1
    ensures Run(c, 0, [Begin(1, 0), Begin(2, 0), End(1, 0, true)]) ==
      Some(State(Core(Open, 1, 0, 0, 0), 1, map[2 := 0], [Completion(0, 0, true)], [Closed, Open], [2, 0], Some(0), 0))
  {
    hide Run;
    var e1, e2, e3 := Begin(1, 0), Begin(2, 0), End(1, 0, true);
    RunNothing(c);
    RunSnoc(c, 0, [], e1);
    RunSnoc(c, 0, [] + [e1], e2);
    RunSnoc(c, 0, [] + [e1] + [e2], e3);
    assert [] + [e1] + [e2] + [e3] == [e1, e2, e3];
    var s := Run(c, 0, [e1, e2, e3]).value;
    assert s.inFlight == map[2 := 0] && s.completions == [Completion(0, 0, true)];
    assert s.modes == [Closed, Open] && s.admissions == [2, 0];
  }

  lemma RunNothing(c: Config)
    ensures Run(c, 0, []) == Some(Initial(0))
  {
  }
}
