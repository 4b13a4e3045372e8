/**
 Every call of a process through the client chain: find the target's breaker in the shared
 registry (a read-locked look, then a write-locked look-again-or-create), ask it, make attempts,
 report one outcome. All steps of all calls interleave freely.
 */
module GrpcRuns {
  import opened Breaker
  import BreakerRuns
  import opened Collections
  import opened GrpcRetry
  import opened Machine
  import opened Wrappers

  // Each breaker is created with these settings; the trial quota is left to its default.
  function CallConfig(): Config {
    Normalize(Config(5, 30 * SECOND, 0))
  }

  // Where the attempt loop stands: before attempt i, in the wait after it, or done.
  datatype Loop = Trying(i: nat) | Waiting(i: nat) | Finished(r: Outcome)

  datatype Phase =
    | Looking
    | Holding(b: nat)
    | Calling(b: nat, loop: Loop, outcomes: seq<Outcome>, waits: seq<Wait>)
    | Rejected(b: nat)
    | Returned(b: nat, r: Outcome, outcomes: seq<Outcome>, waits: seq<Wait>)

  // Clients of one process differ in configuration and share the registry.
  datatype Call = Call(target: string, name: string, cfg: ClientConfig, phase: Phase)

  ghost function BudgetOf(c: Call): nat {
    Budget(c.cfg, c.name)
  }

  // What goes over the wire and into breakers.
  datatype Entry = Tried(o: Outcome) | Recorded(failure: bool)

  // breakers[b] was created for names[b]; histories[b] lists what reached it.
  datatype State = State(
    registry: map<string, nat>,
    names: seq<string>,
    breakers: seq<Core>,
    histories: seq<seq<BreakerRuns.Event>>,
    calls: map<nat, Call>,
    log: seq<(nat, Entry)>,
    clock: int)

  datatype Event =
    | Look(id: nat, target: string, name: string, cfg: ClientConfig)
    | LookAgain(id: nat)
    | Begin(id: nat, now: int)
    | Attempt(id: nat, o: Outcome)
    | WaitEnds(id: nat, w: Wait)
    | End(id: nat, now: int)
    | Reset(target: string, now: int)

  function Initial(now: int): State {
    State(map[], [], [], [], map[], [], now)
  }

  predicate Sane(s: State) {
    && |s.names| == |s.breakers| == |s.histories|
    && forall id | id in s.calls && !s.calls[id].phase.Looking? :: s.calls[id].phase.b < |s.breakers|
  }

  predicate Enabled(s: State, e: Event) {
    && Sane(s)
    && match e
       case Reset(_, now) => s.clock <= now
       case Look(id, _, _, _) => id !in s.calls
       case _ => e.id in s.calls && Allows(s.calls[e.id].phase, s.clock, e)
  }

  predicate Allows(p: Phase, clock: int, e: Event) {
    match e
    case LookAgain(_) => p.Looking?
    case Begin(_, now) => p.Holding? && clock <= now
    case Attempt(_, _) => p.Calling? && p.loop.Trying?
    case WaitEnds(_, _) => p.Calling? && p.loop.Waiting?
    case End(_, now) => p.Calling? && p.loop.Finished? && clock <= now
    case _ => false
  }

  // One turn of the attempt loop.
  function AfterAttempt(budget: nat, i: nat, o: Outcome): Loop {
    if o.Success? || !Retryable(o.code) || i >= budget then Finished(o) else Waiting(i)
  }

  function AfterWait(i: nat, w: Wait): Loop {
    if w.Elapsed? then Trying(i + 1) else Finished(Failure(w.code))
  }

  function At(s: State, id: nat, phase: Phase): State
    requires id in s.calls
  {
    s.(calls := s.calls[id := s.calls[id].(phase := phase)])
  }

  function Told(s: State, b: nat, core: Core, e: BreakerRuns.Event): State
    requires b < |s.breakers| == |s.histories|
  {
    s.(breakers := s.breakers[b := core], histories := s.histories[b := s.histories[b] + [e]], clock := e.now)
  }

  // The registered breaker of a target, if its place is in order.
  predicate HasBreaker(s: State, target: string) {
    target in s.registry && s.registry[target] < |s.breakers|
  }

  ghost function Next(s: State, e: Event): State
    requires Enabled(s, e)
  {
    match e
    case Look(id, target, name, cfg) =>
      var phase := if target in s.registry then Holding(s.registry[target]) else Looking;
      s.(calls := s.calls[id := Call(target, name, cfg, phase)])
    case LookAgain(id) =>
      var target := s.calls[id].target;
      if target in s.registry then At(s, id, Holding(s.registry[target]))
      else
        At(s, id, Holding(|s.breakers|))
          .(registry := s.registry[target := |s.breakers|], names := s.names + [target],
            breakers := s.breakers + [FRESH], histories := s.histories + [[]])
    case Begin(id, now) =>
      var b := s.calls[id].phase.b;
      var asked := Told(s, b, Before(CallConfig(), s.breakers[b], now), BreakerRuns.Begin(id, now));
      At(asked, id, if Admits(CallConfig(), s.breakers[b], now) then Calling(b, Trying(0), [], []) else Rejected(b))
    case Attempt(id, o) =>
      var c := s.calls[id];
      var loop := AfterAttempt(BudgetOf(c), c.phase.loop.i, o);
      At(s, id, c.phase.(loop := loop, outcomes := c.phase.outcomes + [o])).(log := s.log + [(id, Tried(o))])
    case WaitEnds(id, w) =>
      var p := s.calls[id].phase;
      At(s, id, p.(loop := AfterWait(p.loop.i, w), waits := p.waits + [w]))
    case End(id, now) =>
      var p := s.calls[id].phase;
      var failure := BlamesTarget(p.loop.r);
      var told := Told(s, p.b, After(CallConfig(), s.breakers[p.b], now, failure), BreakerRuns.End(id, now, failure));
      At(told, id, Returned(p.b, p.loop.r, p.outcomes, p.waits)).(log := s.log + [(id, Recorded(failure))])
    case Reset(target, now) =>
      if HasBreaker(s, target)
      then Told(s, s.registry[target], ToClosed(s.breakers[s.registry[target]]), BreakerRuns.Reset(now))
      else s.(clock := now)
  }

  ghost function Run(start: int, events: seq<Event>): Option<State> {
    if events == [] then Some(Initial(start))
    else
      var before := Run(start, events[..|events| - 1]);
      if before.Some? && Enabled(before.value, events[|events| - 1])
      then Some(Next(before.value, events[|events| - 1]))
      else None
  }

  // ----- The registry: one breaker per target -----

  ghost predicate Registered(s: State) {
    && Sane(s)
    && (forall t | t in s.registry :: s.registry[t] < |s.names| && s.names[s.registry[t]] == t)
    && (forall b | 0 <= b < |s.names| :: s.names[b] in s.registry && s.registry[s.names[b]] == b)
    && forall id | id in s.calls && !s.calls[id].phase.Looking? :: s.names[s.calls[id].phase.b] == s.calls[id].target
  }

  lemma NextKeepsRegistered(s: State, e: Event)
    requires Registered(s) && Enabled(s, e)
    ensures Registered(Next(s, e))
  {
    hide Registered, BudgetOf, Admits, Before, After, CallConfig, BlamesTarget, AfterAttempt, AfterWait;
    match e {
      case Look(id, target, name, cfg) => LookKeepsRegistered(s, id, target, name, cfg);
      case LookAgain(id) => LookAgainKeepsRegistered(s, id);
      case _ => FrameKeepsRegistered(s, Next(s, e));
    }
  }

  lemma LookKeepsRegistered(s: State, id: nat, target: string, name: string, cfg: ClientConfig)
    requires Registered(s) && id !in s.calls
    ensures
      var phase := if target in s.registry then Holding(s.registry[target]) else Looking;
      Registered(s.(calls := s.calls[id := Call(target, name, cfg, phase)]))
  {
  }

  lemma LookAgainKeepsRegistered(s: State, id: nat)
    requires Registered(s) && Enabled(s, LookAgain(id))
    ensures Registered(Next(s, LookAgain(id)))
  {
  }

  // A step that leaves the registry and every call's target and breaker alone.
  lemma FrameKeepsRegistered(s: State, s': State)
    requires Registered(s)
    requires s'.registry == s.registry && s'.names == s.names
    requires |s'.breakers| == |s.breakers| && |s'.histories| == |s.histories| && s'.calls.Keys == s.calls.Keys
    requires forall id | id in s'.calls ::
      && s'.calls[id].target == s.calls[id].target && (s'.calls[id].phase.Looking? <==> s.calls[id].phase.Looking?)
      && (!s.calls[id].phase.Looking? ==> s'.calls[id].phase.b == s.calls[id].phase.b)
    ensures Registered(s')
  {
  }

  lemma {:induction false} RunKeepsRegistered(start: int, events: seq<Event>)
    requires Run(start, events).Some?
    ensures Registered(Run(start, events).value)
  {
    hide Registered, Next, Enabled;
    if events == [] {
      InitialIsRegistered(start);
    } else {
      var front := events[..|events| - 1];
      RunKeepsRegistered(start, front);
      NextKeepsRegistered(Run(start, front).value, events[|events| - 1]);
    }
  }

  lemma InitialIsRegistered(start: int)
    ensures Registered(Initial(start))
  {
  }

  /** However the registry's locks interleave: two calls that have a breaker have the same one exactly when they
      have the same target, and no breaker was ever created beside the registered one. */
  lemma OneBreakerPerTarget(start: int, events: seq<Event>, x: nat, y: nat)
    requires Run(start, events).Some?
    ensures
      var s := Run(start, events).value;
      && (x in s.calls && y in s.calls && !s.calls[x].phase.Looking? && !s.calls[y].phase.Looking? ==>
            (s.calls[x].phase.b == s.calls[y].phase.b <==> s.calls[x].target == s.calls[y].target))
      && |s.names| == |s.breakers|
      && (forall b | 0 <= b < |s.names| :: s.names[b] in s.registry && s.registry[s.names[b]] == b)
  {
    hide Next, Enabled, Run;
    RunKeepsRegistered(start, events);
  }

  // ----- One call: attempts and the outcome it reports -----

  // The part of the log about one call.
  function Of(log: seq<(nat, Entry)>, id: nat): seq<Entry> {
    if log == [] then []
    else
      var front, last := Of(log[..|log| - 1], id), log[|log| - 1];
      if last.0 == id then front + [last.1] else front
  }

  function Attempts(outcomes: seq<Outcome>): seq<Entry> {
    seq(|outcomes|, i requires 0 <= i < |outcomes| => Tried(outcomes[i]))
  }

  // What a call in this phase has done so far.
  ghost predicate Accounted(budget: nat, p: Phase, entries: seq<Entry>) {
    match p
    case Looking => entries == []
    case Holding(_) => entries == []
    case Rejected(_) => entries == []
    case Calling(_, loop, outcomes, waits) => entries == Attempts(outcomes) && Proper(budget, loop, outcomes, waits)
    case Returned(_, r, outcomes, waits) =>
      && Retried(budget, outcomes, waits, r)
      && entries == Attempts(outcomes) + [Recorded(BlamesTarget(r))]
  }

  ghost predicate Proper(budget: nat, loop: Loop, outcomes: seq<Outcome>, waits: seq<Wait>) {
    match loop
    case Trying(i) => i == |outcomes| == |waits| <= budget && Unfinished(outcomes, waits)
    case Waiting(i) =>
      && i < budget && i + 1 == |outcomes| && i == |waits|
      && outcomes[i] == Failure(Unavailable) && Unfinished(outcomes[..i], waits)
    case Finished(r) => Retried(budget, outcomes, waits, r)
  }

  lemma AttemptKeepsProper(budget: nat, i: nat, outcomes: seq<Outcome>, waits: seq<Wait>, o: Outcome)
    requires Proper(budget, Trying(i), outcomes, waits)
    ensures Proper(budget, AfterAttempt(budget, i, o), outcomes + [o], waits)
  {
    hide Retried, Unfinished;
    if AfterAttempt(budget, i, o).Finished? {
      StopsOn(budget, outcomes, waits, o);
    } else {
      assert (outcomes + [o])[..i] == outcomes;
    }
  }

  lemma WaitKeepsProper(budget: nat, i: nat, outcomes: seq<Outcome>, waits: seq<Wait>, w: Wait)
    requires Proper(budget, Waiting(i), outcomes, waits)
    ensures Proper(budget, AfterWait(i, w), outcomes, waits + [w])
  {
    hide Retried, Unfinished;
    assert outcomes == outcomes[..i] + [Failure(Unavailable)];
    if w.Elapsed? {
      GoesOn(outcomes[..i], waits);
    } else {
      StopsWaiting(budget, outcomes[..i], waits, w.code);
    }
  }

  ghost predicate AllAccounted(s: State) {
    && (forall id | id in s.calls :: Accounted(BudgetOf(s.calls[id]), s.calls[id].phase, Of(s.log, id)))
    && forall id: nat | id !in s.calls :: Of(s.log, id) == []
  }

  lemma OfSnoc(log: seq<(nat, Entry)>, id: nat, x: nat, entry: Entry)
    ensures Of(log + [(id, entry)], x) == if x == id then Of(log, x) + [entry] else Of(log, x)
  {
    assert (log + [(id, entry)])[..|log|] == log;
  }

  lemma AttemptsSnoc(outcomes: seq<Outcome>, o: Outcome)
    ensures Attempts(outcomes + [o]) == Attempts(outcomes) + [Tried(o)]
  {
  }

  // The call that steps stays accounted for.
  lemma OwnStepAccounted(s: State, e: Event)
    requires AllAccounted(s) && Enabled(s, e) && !e.Reset?
    ensures
      var s' := Next(s, e);
      && s'.calls.Keys == s.calls.Keys + {e.id}
      && Accounted(BudgetOf(s'.calls[e.id]), s'.calls[e.id].phase, Of(s'.log, e.id))
  {
    hide Proper, Retried, Attempts, Of, Budget, Admits, Before, After, CallConfig, BlamesTarget, AfterAttempt, AfterWait;
    match e {
      case Attempt(id, o) =>
        var c := s.calls[id];
        OfSnoc(s.log, id, id, Tried(o));
        AttemptsSnoc(c.phase.outcomes, o);
        AttemptKeepsProper(BudgetOf(c), c.phase.loop.i, c.phase.outcomes, c.phase.waits, o);
      case WaitEnds(id, w) =>
        var c := s.calls[id];
        WaitKeepsProper(BudgetOf(c), c.phase.loop.i, c.phase.outcomes, c.phase.waits, w);
      case End(id, now) =>
        var p := s.calls[id].phase;
        OfSnoc(s.log, id, id, Recorded(BlamesTarget(p.loop.r)));
        FinishedMeans(BudgetOf(s.calls[id]), p.loop, p.outcomes, p.waits);
      case Begin(id, now) =>
        NothingProper(BudgetOf(s.calls[id]));
      case _ =>
    }
  }

  lemma FinishedMeans(budget: nat, loop: Loop, outcomes: seq<Outcome>, waits: seq<Wait>)
    requires Proper(budget, loop, outcomes, waits) && loop.Finished?
    ensures Retried(budget, outcomes, waits, loop.r)
  {
  }

  lemma NothingProper(budget: nat)
    ensures Proper(budget, Trying(0), [], []) && Attempts([]) == []
  {
  }

  // Every other call is untouched.
  lemma OthersUntouched(s: State, e: Event, x: nat)
    requires Enabled(s, e) && (e.Reset? || x != e.id)
    ensures
      var s' := Next(s, e);
      && (x in s'.calls <==> x in s.calls)
      && (x in s.calls ==> s'.calls[x] == s.calls[x])
      && Of(s'.log, x) == Of(s.log, x)
  {
    hide Of, BudgetOf, Admits, Before, After, CallConfig, BlamesTarget, AfterAttempt, AfterWait;
    match e {
      case Attempt(id, o) => OfSnoc(s.log, id, x, Tried(o));
      case End(id, now) => OfSnoc(s.log, id, x, Recorded(BlamesTarget(s.calls[id].phase.loop.r)));
      case _ =>
    }
  }

  lemma NextKeepsAccounted(s: State, e: Event)
    requires AllAccounted(s) && Enabled(s, e)
    ensures AllAccounted(Next(s, e))
  {
    hide Next, Enabled, Accounted, Of, BudgetOf;
    if !e.Reset? {
      OwnStepAccounted(s, e);
    }
    forall x: nat | e.Reset? || x != e.id
      ensures
        var s' := Next(s, e);
        && (x in s'.calls <==> x in s.calls)
        && (x in s.calls ==> s'.calls[x] == s.calls[x])
        && Of(s'.log, x) == Of(s.log, x)
    {
      OthersUntouched(s, e, x);
    }
  }

  lemma {:induction false} RunKeepsAccounted(start: int, events: seq<Event>)
    requires Run(start, events).Some?
    ensures AllAccounted(Run(start, events).value)
  {
    hide AllAccounted, Next, Enabled;
    if events == [] {
      InitialIsAccounted(start);
    } else {
      var front := events[..|events| - 1];
      RunKeepsAccounted(start, front);
      NextKeepsAccounted(Run(start, front).value, events[|events| - 1]);
    }
  }

  lemma InitialIsAccounted(start: int)
    ensures AllAccounted(Initial(start))
  {
  }

  /** For every interleaving and every invoker: a rejected call reached neither the wire nor its breaker's books; a
      returned one made between 1 and budget + 1 attempts, each but the last an Unavailable on a method that may be
      retried, and then reported exactly one outcome, the one its caller got. */
  lemma CallAccounting(start: int, events: seq<Event>, id: nat)
    requires Run(start, events).Some? && id in Run(start, events).value.calls
    ensures
      var s := Run(start, events).value;
      var c := s.calls[id];
      && (c.phase.Rejected? ==> Of(s.log, id) == [])
      && (c.phase.Returned? ==>
            var outcomes := c.phase.outcomes;
            && Of(s.log, id) == Attempts(outcomes) + [Recorded(BlamesTarget(c.phase.r))]
            && 1 <= |outcomes| && |outcomes| <= (if c.cfg.maxRetries < 0 then 0 else c.cfg.maxRetries) + 1
            && (|outcomes| > 1 ==> AllowsRetry(c.cfg, c.name))
            && (forall i | 0 <= i < |outcomes| - 1 :: outcomes[i] == Failure(Unavailable))
            && Retried(BudgetOf(c), outcomes, c.phase.waits, c.phase.r))
  {
    hide Run, Of, Attempts, Retried, BlamesTarget;
    RunKeepsAccounted(start, events);
    var s := Run(start, events).value;
    var c := s.calls[id];
    assert Accounted(BudgetOf(c), c.phase, Of(s.log, id));
    if c.phase.Returned? {
      var budget, p := BudgetOf(c), c.phase;
      LastOne(budget, p.outcomes, p.waits, p.r);
      forall i: nat | i < |p.outcomes| - 1
        ensures p.outcomes[i] == Failure(Unavailable)
      {
        EarlierWereUnavailable(budget, p.outcomes, p.waits, p.r, i);
      }
    }
  }

  // ----- Every breaker lives through a run of its own -----

  ghost predicate InFlight(calls: map<nat, Call>, id: nat, b: nat) {
    id in calls && calls[id].phase.Calling? && calls[id].phase.b == b
  }

  // Breaker b is where its own history takes a breaker, and waits for exactly the calls it let through.
  ghost predicate Mirrors(start: int, core: Core, history: seq<BreakerRuns.Event>, calls: map<nat, Call>, b: nat, clock: int) {
    var run := BreakerRuns.Run(CallConfig(), start, history);
    && run.Some?
    && run.value.core == core && run.value.clock <= clock
    && forall id: nat :: id in run.value.inFlight <==> InFlight(calls, id, b)
  }

  ghost predicate AllMirror(start: int, s: State) {
    && Sane(s) && start <= s.clock
    && forall b | 0 <= b < |s.breakers| :: Mirrors(start, s.breakers[b], s.histories[b], s.calls, b, s.clock)
  }

  lemma MirrorsFrame(start: int, core: Core, history: seq<BreakerRuns.Event>, calls: map<nat, Call>, calls': map<nat, Call>,
                     b: nat, clock: int, clock': int)
    requires Mirrors(start, core, history, calls, b, clock) && clock <= clock'
    requires forall id: nat :: InFlight(calls, id, b) <==> InFlight(calls', id, b)
    ensures Mirrors(start, core, history, calls', b, clock')
  {
    hide BreakerRuns.Run, CallConfig, InFlight;
  }

  lemma BreakerTakesBegin(c: Config, t: BreakerRuns.State, id: nat, now: int)
    requires BreakerRuns.Inv(c, t) && t.clock <= now && id !in t.inFlight
    ensures
      var e := BreakerRuns.Begin(id, now);
      var t' := BreakerRuns.Next(c, t, e);
      && BreakerRuns.Enabled(t, e)
      && t'.core == Before(c, t.core, now) && t'.clock == now
      && t'.inFlight.Keys == if Admits(c, t.core, now) then t.inFlight.Keys + {id} else t.inFlight.Keys
  {
    hide Before, Admits;
    assert t.epoch < |t.admissions|;
  }

  lemma BreakerTakesEnd(c: Config, t: BreakerRuns.State, id: nat, now: int, failure: bool)
    requires t.clock <= now && id in t.inFlight
    ensures
      var e := BreakerRuns.End(id, now, failure);
      var t' := BreakerRuns.Next(c, t, e);
      && BreakerRuns.Enabled(t, e)
      && t'.core == After(c, t.core, now, failure) && t'.clock == now
      && t'.inFlight.Keys == t.inFlight.Keys - {id}
  {
    hide After;
  }

  lemma BeginMirrors(start: int, core: Core, history: seq<BreakerRuns.Event>, calls: map<nat, Call>, calls': map<nat, Call>,
                     b: nat, clock: int, id: nat, now: int)
    requires Mirrors(start, core, history, calls, b, clock) && clock <= now
    requires !InFlight(calls, id, b)
    requires forall x: nat | x != id :: InFlight(calls, x, b) <==> InFlight(calls', x, b)
    requires InFlight(calls', id, b) <==> Admits(CallConfig(), core, now)
    ensures Mirrors(start, Before(CallConfig(), core, now), history + [BreakerRuns.Begin(id, now)], calls', b, now)
  {
    hide BreakerRuns.Run, BreakerRuns.Next, BreakerRuns.Enabled, BreakerRuns.Inv, InFlight, Before, Admits;
    var t := BreakerRuns.Run(CallConfig(), start, history).value;
    BreakerRuns.RunKeepsInv(CallConfig(), start, history);
    BreakerTakesBegin(CallConfig(), t, id, now);
    BreakerRuns.RunSnoc(CallConfig(), start, history, BreakerRuns.Begin(id, now));
    var t' := BreakerRuns.Next(CallConfig(), t, BreakerRuns.Begin(id, now));
    forall x: nat
      ensures x in t'.inFlight <==> InFlight(calls', x, b)
    {
      assert x in t'.inFlight <==> x in t'.inFlight.Keys;
    }
  }

  lemma EndMirrors(start: int, core: Core, history: seq<BreakerRuns.Event>, calls: map<nat, Call>, calls': map<nat, Call>,
                   b: nat, clock: int, id: nat, now: int, failure: bool)
    requires Mirrors(start, core, history, calls, b, clock) && clock <= now
    requires InFlight(calls, id, b) && !InFlight(calls', id, b)
    requires forall x: nat | x != id :: InFlight(calls, x, b) <==> InFlight(calls', x, b)
    ensures Mirrors(start, After(CallConfig(), core, now, failure), history + [BreakerRuns.End(id, now, failure)], calls', b, now)
  {
    hide BreakerRuns.Run, BreakerRuns.Next, BreakerRuns.Enabled, InFlight, After;
    var t := BreakerRuns.Run(CallConfig(), start, history).value;
    BreakerTakesEnd(CallConfig(), t, id, now, failure);
    BreakerRuns.RunSnoc(CallConfig(), start, history, BreakerRuns.End(id, now, failure));
    var t' := BreakerRuns.Next(CallConfig(), t, BreakerRuns.End(id, now, failure));
    forall x: nat
      ensures x in t'.inFlight <==> InFlight(calls', x, b)
    {
      assert x in t'.inFlight <==> x in t'.inFlight.Keys;
    }
  }

  lemma ResetMirrors(start: int, core: Core, history: seq<BreakerRuns.Event>, calls: map<nat, Call>, b: nat, clock: int,
                     now: int)
    requires Mirrors(start, core, history, calls, b, clock) && clock <= now
    ensures Mirrors(start, ToClosed(core), history + [BreakerRuns.Reset(now)], calls, b, now)
  {
    hide BreakerRuns.Run, InFlight;
    BreakerRuns.RunSnoc(CallConfig(), start, history, BreakerRuns.Reset(now));
  }

  lemma NewBreakerMirrors(start: int, calls: map<nat, Call>, b: nat, clock: int)
    requires start <= clock && forall id: nat :: !InFlight(calls, id, b)
    ensures Mirrors(start, FRESH, [], calls, b, clock)
  {
    hide InFlight;
  }

  // Which calls a step makes or stops being in flight at b.
  lemma FlightsFrame(s: State, e: Event, b: nat, x: nat)
    requires Enabled(s, e)
    requires !(e.Begin? && s.calls[e.id].phase.b == b && x == e.id) && !(e.End? && x == e.id)
    ensures InFlight(s.calls, x, b) <==> InFlight(Next(s, e).calls, x, b)
  {
    hide BudgetOf, Admits, Before, After, CallConfig, BlamesTarget, AfterAttempt, AfterWait;
  }

  lemma StepMirrors(start: int, s: State, e: Event, b: nat)
    requires AllMirror(start, s) && Enabled(s, e) && b < |Next(s, e).breakers|
    requires |Next(s, e).breakers| == |Next(s, e).histories|
    ensures
      var s' := Next(s, e);
      Mirrors(start, s'.breakers[b], s'.histories[b], s'.calls, b, s'.clock)
  {
    hide Mirrors, BudgetOf, Admits, Before, After, CallConfig, BlamesTarget, AfterAttempt, AfterWait;
    var s' := Next(s, e);
    forall x: nat | !(e.Begin? && s.calls[e.id].phase.b == b && x == e.id) && !(e.End? && x == e.id)
      ensures InFlight(s.calls, x, b) <==> InFlight(s'.calls, x, b)
    {
      FlightsFrame(s, e, b, x);
    }
    if b == |s.breakers| {
      NewBreakerMirrors(start, s'.calls, b, s'.clock);
    } else if e.Begin? && s.calls[e.id].phase.b == b {
      BeginMirrors(start, s.breakers[b], s.histories[b], s.calls, s'.calls, b, s.clock, e.id, e.now);
    } else if e.End? && s.calls[e.id].phase.b == b {
      EndMirrors(start, s.breakers[b], s.histories[b], s.calls, s'.calls, b, s.clock, e.id, e.now,
                 BlamesTarget(s.calls[e.id].phase.loop.r));
    } else if e.Reset? && HasBreaker(s, e.target) && s.registry[e.target] == b {
      ResetMirrors(start, s.breakers[b], s.histories[b], s.calls, b, s.clock, e.now);
    } else {
      MirrorsFrame(start, s.breakers[b], s.histories[b], s.calls, s'.calls, b, s.clock, s'.clock);
    }
  }

  lemma ClockAdvances(s: State, e: Event)
    requires Enabled(s, e)
    ensures s.clock <= Next(s, e).clock
  {
    hide BudgetOf, Admits, Before, After, CallConfig, BlamesTarget, AfterAttempt, AfterWait;
  }

  lemma NextKeepsMirror(start: int, s: State, e: Event)
    requires AllMirror(start, s) && Enabled(s, e) && Registered(s)
    ensures AllMirror(start, Next(s, e))
  {
    hide Mirrors, Next, Enabled;
    NextKeepsRegistered(s, e);
    ClockAdvances(s, e);
    var s' := Next(s, e);
    forall b | 0 <= b < |s'.breakers|
      ensures Mirrors(start, s'.breakers[b], s'.histories[b], s'.calls, b, s'.clock)
    {
      StepMirrors(start, s, e, b);
    }
  }

  lemma {:induction false} RunKeepsMirror(start: int, events: seq<Event>)
    requires Run(start, events).Some?
    ensures AllMirror(start, Run(start, events).value)
  {
    hide AllMirror, Registered, Next, Enabled;
    if events == [] {
      InitialMirrors(start);
    } else {
      var front := events[..|events| - 1];
      RunKeepsMirror(start, front);
      RunKeepsRegistered(start, front);
      NextKeepsMirror(start, Run(start, front).value, events[|events| - 1]);
    }
  }

  lemma InitialMirrors(start: int)
    ensures AllMirror(start, Initial(start))
  {
  }

  /** The chain refines the breaker protocol: what reaches any one breaker is a run of it, in flight there are
      exactly the calls that are between admission and return, and so all that holds of every run of a breaker
      holds of every target of the client. */
  lemma EveryBreakerRuns(start: int, events: seq<Event>, b: nat)
    requires Run(start, events).Some? && b < |Run(start, events).value.breakers|
    ensures
      var s := Run(start, events).value;
      && b < |s.histories|
      && var run := BreakerRuns.Run(CallConfig(), start, s.histories[b]);
         && run.Some? && run.value.core == s.breakers[b]
         && forall id: nat :: id in run.value.inFlight <==> InFlight(s.calls, id, b)
  {
    hide Run, BreakerRuns.Run;
    RunKeepsMirror(start, events);
    var s := Run(start, events).value;
    assert Mirrors(start, s.breakers[b], s.histories[b], s.calls, b, s.clock);
  }

  // The calls that are between a breaker's admission and their report to it.
  function Pending(calls: map<nat, Call>, b: nat): set<nat> {
    set id | id in calls && calls[id].phase.Calling? && calls[id].phase.b == b
  }

  lemma OwnArePending(t: BreakerRuns.State, calls: map<nat, Call>, b: nat)
    requires forall id: nat :: id in t.inFlight <==> InFlight(calls, id, b)
    ensures |BreakerRuns.Own(t)| <= |Pending(calls, b)|
  {
    assert BreakerRuns.Own(t) <= Pending(calls, b);
    SubsetCount(BreakerRuns.Own(t), Pending(calls, b));
  }

  /** No target stays cut off: when a half-open breaker turns the next call away, at least two calls to that
      target are past it and will report back. */
  lemma TargetNeverWedged(start: int, events: seq<Event>, b: nat, now: int)
    requires Run(start, events).Some? && b < |Run(start, events).value.breakers|
    ensures
      var s := Run(start, events).value;
      s.breakers[b].mode == HalfOpen ==> Admits(CallConfig(), s.breakers[b], now) || |Pending(s.calls, b)| >= 2
  {
    hide Run, BreakerRuns.Run, BreakerRuns.Own, Pending, InFlight, Admits;
    EveryBreakerRuns(start, events, b);
    var s := Run(start, events).value;
    BreakerRuns.NeverWedged(CallConfig(), start, s.histories[b], now);
    OwnArePending(BreakerRuns.Run(CallConfig(), start, s.histories[b]).value, s.calls, b);
  }

  // ----- Every admitted call returns -----

  predicate IsOwnStep(e: Event, id: nat) {
    (e.Attempt? || e.WaitEnds? || e.End?) && e.id == id
  }

  function OwnSteps(events: seq<Event>, id: nat): nat {
    if events == [] then 0
    else OwnSteps(events[..|events| - 1], id) + if IsOwnStep(events[|events| - 1], id) then 1 else 0
  }

  // The steps an admitted call has taken to get to where it is.
  function StepsTo(p: Phase): nat {
    match p
    case Calling(_, _, outcomes, waits) => |outcomes| + |waits|
    case Returned(_, _, outcomes, waits) => |outcomes| + |waits| + 1
    case _ => 0
  }

  function StepsOf(calls: map<nat, Call>, id: nat): nat {
    if id in calls then StepsTo(calls[id].phase) else 0
  }

  lemma NextCounts(s: State, e: Event, id: nat)
    requires Enabled(s, e)
    ensures StepsOf(Next(s, e).calls, id) == StepsOf(s.calls, id) + if IsOwnStep(e, id) then 1 else 0
  {
    hide BudgetOf, Admits, Before, After, CallConfig, BlamesTarget, AfterAttempt, AfterWait;
  }

  lemma {:induction false} RunCounts(start: int, events: seq<Event>, id: nat)
    requires Run(start, events).Some?
    ensures OwnSteps(events, id) == StepsOf(Run(start, events).value.calls, id)
  {
    hide Next, Enabled, StepsOf;
    if events == [] {
      NothingCounts(start, id);
    } else {
      var front := events[..|events| - 1];
      RunCounts(start, front, id);
      NextCounts(Run(start, front).value, events[|events| - 1], id);
    }
  }

  lemma NothingCounts(start: int, id: nat)
    ensures StepsOf(Initial(start).calls, id) == 0
  {
  }

  lemma FewSteps(budget: nat, p: Phase, entries: seq<Entry>)
    requires Accounted(budget, p, entries)
    ensures StepsTo(p) <= 2 * budget + 2
    ensures p.Calling? ==> StepsTo(p) <= 2 * budget + 1
  {
    hide Attempts, BlamesTarget, Unfinished;
  }

  lemma FewOwnSteps(start: int, events: seq<Event>, id: nat)
    requires Run(start, events).Some? && id in Run(start, events).value.calls
    ensures var c := Run(start, events).value.calls[id];
      && OwnSteps(events, id) <= 2 * BudgetOf(c) + 2
      && (c.phase.Calling? ==> OwnSteps(events, id) <= 2 * BudgetOf(c) + 1)
  {
    hide Run, Accounted, BudgetOf, Of, StepsTo;
    RunKeepsAccounted(start, events);
    RunCounts(start, events, id);
    var s := Run(start, events).value;
    FewSteps(BudgetOf(s.calls[id]), s.calls[id].phase, Of(s.log, id));
  }

  // The one step a call past its breaker can take, given the oracles' answers.
  function OwnNext(s: State, id: nat, o: Outcome, w: Wait): Event
    requires id in s.calls && s.calls[id].phase.Calling?
  {
    match s.calls[id].phase.loop
    case Trying(_) => Attempt(id, o)
    case Waiting(_) => WaitEnds(id, w)
    case Finished(_) => End(id, s.clock)
  }

  lemma OwnNextWorks(s: State, id: nat, o: Outcome, w: Wait)
    requires Sane(s) && id in s.calls && s.calls[id].phase.Calling?
    ensures
      var e := OwnNext(s, id, o, w);
      && Enabled(s, e) && IsOwnStep(e, id)
      && var s' := Next(s, e);
         && id in s'.calls && (s'.calls[id].phase.Calling? || s'.calls[id].phase.Returned?)
         && s'.calls[id].(phase := s.calls[id].phase) == s.calls[id]
  {
    hide BudgetOf, Admits, Before, After, CallConfig, BlamesTarget, AfterAttempt, AfterWait;
  }

  lemma RunSnoc(start: int, events: seq<Event>, e: Event)
    requires Run(start, events).Some? && Enabled(Run(start, events).value, e)
    ensures Run(start, events + [e]) == Some(Next(Run(start, events).value, e))
  {
    hide Next, Enabled;
    assert (events + [e])[..|events|] == events;
  }

  lemma OwnStepsSnoc(events: seq<Event>, e: Event, id: nat)
    ensures OwnSteps(events + [e], id) == OwnSteps(events, id) + if IsOwnStep(e, id) then 1 else 0
  {
    assert (events + [e])[..|events|] == events;
  }

  // All steps are the call's own and take the k-th answers of the oracles.
  predicate Answered(more: seq<Event>, id: nat, from: nat, o: nat -> Outcome, w: nat -> Wait) {
    forall i | 0 <= i < |more| ::
      && IsOwnStep(more[i], id)
      && (more[i].Attempt? ==> more[i].o == o(from + i))
      && (more[i].WaitEnds? ==> more[i].w == w(from + i))
  }

  lemma AnsweredCons(e: Event, more: seq<Event>, id: nat, from: nat, o: nat -> Outcome, w: nat -> Wait)
    requires IsOwnStep(e, id) && (e.Attempt? ==> e.o == o(from)) && (e.WaitEnds? ==> e.w == w(from))
    requires Answered(more, id, from + 1, o, w)
    ensures Answered([e] + more, id, from, o, w)
  {
    var all := [e] + more;
    forall i | 0 <= i < |all|
      ensures IsOwnStep(all[i], id)
      ensures (all[i].Attempt? ==> all[i].o == o(from + i)) && (all[i].WaitEnds? ==> all[i].w == w(from + i))
    {
      if i > 0 {
        assert all[i] == more[i - 1] && from + 1 + (i - 1) == from + i;
      }
    }
  }

  lemma OwnNextAnswers(s: State, id: nat, o: Outcome, w: Wait)
    requires id in s.calls && s.calls[id].phase.Calling?
    ensures
      var e := OwnNext(s, id, o, w);
      (e.Attempt? ==> e.o == o) && (e.WaitEnds? ==> e.w == w)
  {
  }

  /** Every admitted call returns after at most 2 * budget + 2 steps of its own, whatever the oracles answer: from any
      state of any run its own steps alone take it there, and no interleaving gives it more. */
  lemma {:induction false} AdmittedCallsReturn(start: int, events: seq<Event>, id: nat, o: nat -> Outcome, w: nat -> Wait)
    returns (more: seq<Event>)
    requires Run(start, events).Some? && id in Run(start, events).value.calls
    requires Run(start, events).value.calls[id].phase.Calling?
    ensures Run(start, events + more).Some? && id in Run(start, events + more).value.calls
    ensures Run(start, events + more).value.calls[id].phase.Returned?
    ensures Answered(more, id, OwnSteps(events, id), o, w)
    ensures OwnSteps(events, id) + |more| <= 2 * BudgetOf(Run(start, events).value.calls[id]) + 2
    decreases 2 * BudgetOf(Run(start, events).value.calls[id]) + 2 - OwnSteps(events, id)
  {
    hide Run, Next, Enabled, OwnNext, OwnSteps, BudgetOf, Answered;
    var s, k := Run(start, events).value, OwnSteps(events, id);
    RunKeepsRegistered(start, events);
    FewOwnSteps(start, events, id);
    var e := OwnNext(s, id, o(k), w(k));
    OwnNextWorks(s, id, o(k), w(k));
    OwnNextAnswers(s, id, o(k), w(k));
    RunSnoc(start, events, e);
    OwnStepsSnoc(events, e, id);
    SameBudget(s.calls[id], Run(start, events + [e]).value.calls[id]);
    if Run(start, events + [e]).value.calls[id].phase.Returned? {
      NothingAnswered(id, k + 1, o, w);
      AnsweredCons(e, [], id, k, o, w);
      more := [e];
      assert [e] + [] == more;
    } else {
      FewOwnSteps(start, events + [e], id);
      var rest := AdmittedCallsReturn(start, events + [e], id, o, w);
      AnsweredCons(e, rest, id, k, o, w);
      more := [e] + rest;
      assert events + [e] + rest == events + more;
    }
  }

  lemma SameBudget(c: Call, c': Call)
    requires c'.(phase := c.phase) == c
    ensures BudgetOf(c) == BudgetOf(c')
  {
  }

  lemma NothingAnswered(id: nat, from: nat, o: nat -> Outcome, w: nat -> Wait)
    ensures Answered([], id, from, o, w)
  {
  }

  /** Resetting a target closes its breaker, from any state of any run, and touches no other one and no call. */
  lemma ResetCloses(start: int, events: seq<Event>, target: string, now: int)
    requires Run(start, events).Some? && Run(start, events).value.clock <= now
    ensures Run(start, events + [Reset(target, now)]).Some?
    ensures
      var s, s' := Run(start, events).value, Run(start, events + [Reset(target, now)]).value;
      && |s'.breakers| == |s.breakers| && s'.calls == s.calls && s'.registry == s.registry
      && (target in s.registry ==>
            && s.registry[target] < |s.breakers|
            && s'.breakers[s.registry[target]].mode == Closed && s'.breakers[s.registry[target]].failures == 0)
      && (forall b | 0 <= b < |s.breakers| && (target in s.registry ==> b != s.registry[target]) ::
            s'.breakers[b] == s.breakers[b])
  {
    hide Run;
    RunKeepsRegistered(start, events);
    RunSnoc(start, events, Reset(target, now));
  }
}
