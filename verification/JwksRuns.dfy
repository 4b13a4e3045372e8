/**
 Any number of concurrent lookups and background refreshes of one JWKS cache, interleaved at
 every lock and every clock reading.
 */
module JwksRuns {
  import opened Wrappers
  import opened Jwks

  // Where a lookup stands. Between Locked and Releasing it holds refreshMu. version numbers the
  // key set a snapshot was taken from.
  datatype Pc =
    | Started
    | First(snap: Snapshot, version: nat)
    | Missed(snap: Snapshot)
    | WantsLock
    | Locked
    | Second(snap: Snapshot)
    | Checked(snap: Snapshot, throttled: bool, at: int)
    | Refreshing(at: int)
    | Fetching
    | Fetched(ok: bool)
    | Third(snap: Snapshot, ok: bool, version: nat)
    | Releasing(stale: bool, version: nat)
    | Unlocked
    | Final(snap: Snapshot, version: nat)

  datatype Call = Call(kid: Kid, startedAt: int, pc: Pc)

  datatype Install = Install(keys: KeySet, time: int)

  // A finished lookup; at is the clock reading that decided it.
  datatype Outcome = Outcome(kid: Kid, answer: Answer, version: nat, startedAt: int, at: int)

  // onDemand holds the times of the attempts lookups made, attempts those of all.
  datatype State = State(
    cache: Cache,
    holder: Option<nat>,
    calls: map<nat, Call>,
    installs: seq<Install>,
    onDemand: seq<int>,
    attempts: seq<int>,
    outcomes: seq<Outcome>,
    clock: int)

  function Initial(now: int): State {
    State(EMPTY, None, map[], [], [], [], [], now)
  }

  // Advance moves lookup id one step; fetched is what its fetch returns, should it be at that step.
  datatype Event =
    | Begin(id: nat, kid: Kid, now: int)
    | Advance(id: nat, now: int, fetched: Option<KeySet>)
    | BackgroundAttempt(now: int)
    | BackgroundInstall(keys: KeySet, now: int)

  predicate InLock(pc: Pc) {
    pc.Locked? || pc.Second? || pc.Checked? || pc.Refreshing? || pc.Fetching? || pc.Fetched? || pc.Third? || pc.Releasing?
  }

  predicate Enabled(s: State, e: Event) {
    && s.clock <= e.now
    && (e.Begin? ==> e.id !in s.calls)
    && (e.Advance? ==> e.id in s.calls && (s.calls[e.id].pc.WantsLock? ==> s.holder.None?))
  }

  function Installing(s: State, keys: KeySet, now: int): State {
    s.(cache := Installed(s.cache, keys, now), installs := s.installs + [Install(keys, now)])
  }

  function Goto(s: State, id: nat, call: Call, pc: Pc): State {
    s.(calls := s.calls[id := call.(pc := pc)])
  }

  function Finish(s: State, id: nat, call: Call, answer: Answer, version: nat): State {
    s.(calls := s.calls - {id},
       outcomes := s.outcomes + [Outcome(call.kid, answer, version, call.startedAt, s.clock)])
  }

  // The answer the last look gives.
  function AnswerOf(p: Params, snap: Snapshot, now: int): Answer {
    if snap.key.None? then Unknown
    else if IsStale(p, snap.lastFetch, now) then Stale
    else Found(snap.key.value)
  }

  // One step of lookup id at s.clock.
  function Step(p: Params, s: State, id: nat, call: Call, fetched: Option<KeySet>): State {
    var now, version := s.clock, |s.installs|;
    match call.pc
    case Started => Goto(s, id, call, First(Snap(s.cache, call.kid), version))
    case First(snap, v) =>
      if snap.key.Some? && !IsStale(p, snap.lastFetch, now) then Finish(s, id, call, Found(snap.key.value), v)
      else Goto(s, id, call, Missed(snap))
    case Missed(snap) =>
      Goto(s, id, call, if Over(snap.lastAttempt, now, p.minRefetchInterval) then WantsLock else Unlocked)
    case WantsLock => Goto(s, id, call, Locked).(holder := Some(id))
    case Locked => Goto(s, id, call, Second(Snap(s.cache, call.kid)))
    case Second(snap) => Goto(s, id, call, Checked(snap, !Over(snap.lastAttempt, now, p.minRefetchInterval), now))
    case Checked(snap, throttled, at) =>
      Goto(s, id, call, if (snap.key.None? || IsStale(p, snap.lastFetch, now)) && !throttled then Refreshing(at)
                        else Releasing(false, 0))
    case Refreshing(_) =>
      Goto(s, id, call, Fetching)
        .(cache := Attempted(s.cache, now), onDemand := s.onDemand + [now], attempts := s.attempts + [now])
    case Fetching =>
      var s' := if fetched.Some? then Installing(s, fetched.value, now) else s;
      Goto(s', id, call, Fetched(fetched.Some?))
    case Fetched(ok) => Goto(s, id, call, Third(Snap(s.cache, call.kid), ok, version))
    case Third(snap, ok, v) => Goto(s, id, call, Releasing(!ok && snap.key.Some? && IsStale(p, snap.lastFetch, now), v))
    case Releasing(stale, v) =>
      var s' := s.(holder := None);
      if stale then Finish(s', id, call, Stale, v) else Goto(s', id, call, Unlocked)
    case Unlocked => Goto(s, id, call, Final(Snap(s.cache, call.kid), version))
    case Final(snap, v) => Finish(s, id, call, AnswerOf(p, snap, now), v)
  }

  function Next(p: Params, s: State, e: Event): State {
    var s' := s.(clock := e.now);
    match e
    case Begin(id, kid, now) => s'.(calls := s.calls[id := Call(kid, now, Started)])
    case Advance(id, now, fetched) => if id in s.calls then Step(p, s', id, s.calls[id], fetched) else s'
    case BackgroundAttempt(now) => s'.(cache := Attempted(s.cache, now), attempts := s.attempts + [now])
    case BackgroundInstall(keys, now) => Installing(s', keys, now)
  }

  function Run(p: Params, start: int, events: seq<Event>): Option<State> {
    if events == [] then Some(Initial(start))
    else
      var before := Run(p, start, events[..|events| - 1]);
      if before.Some? && Enabled(before.value, events[|events| - 1])
      then Some(Next(p, before.value, events[|events| - 1]))
      else None
  }

  // keys and lastFetch always come from the same, latest, successful refresh.
  ghost predicate Coherent(cache: Cache, installs: seq<Install>) {
    if installs == [] then cache.keys == map[] && cache.lastFetch.None?
    else cache.keys == installs[|installs| - 1].keys && cache.lastFetch == Some(installs[|installs| - 1].time)
  }

  // The snapshot's key, or its absence, and its time are those of key set number version.
  ghost predicate Authentic(installs: seq<Install>, kid: Kid, snap: Snapshot, version: nat) {
    && version <= |installs|
    && (version == 0 ==> snap.key.None? && snap.lastFetch.None?)
    && (version > 0 ==>
          && snap.key == Lookup(installs[version - 1].keys, kid)
          && snap.lastFetch == Some(installs[version - 1].time))
  }

  // Key set number version has the key and is more than maxStale old.
  ghost predicate Outdated(p: Params, installs: seq<Install>, kid: Kid, version: nat, now: int) {
    0 < version <= |installs| && kid in installs[version - 1].keys && now - installs[version - 1].time > p.maxStale
  }

  ghost predicate Spaced(p: Params, onDemand: seq<int>) {
    forall i | 0 < i < |onDemand| :: onDemand[i] - onDemand[i - 1] > p.minRefetchInterval
  }

  // The latest on-demand attempt is no later than the recorded attempt t.
  predicate Covers(t: Option<int>, onDemand: seq<int>) {
    onDemand != [] ==> t.Some? && onDemand[|onDemand| - 1] <= t.value
  }

  predicate Clear(p: Params, at: int, onDemand: seq<int>) {
    onDemand != [] ==> at - onDemand[|onDemand| - 1] > p.minRefetchInterval
  }

  ghost predicate CallOk(p: Params, call: Call, installs: seq<Install>, onDemand: seq<int>, clock: int) {
    && call.startedAt <= clock
    && match call.pc
       case First(snap, v) => Authentic(installs, call.kid, snap, v)
       case Final(snap, v) => Authentic(installs, call.kid, snap, v)
       case Third(snap, _, v) => Authentic(installs, call.kid, snap, v)
       case Releasing(stale, v) => stale ==> Outdated(p, installs, call.kid, v, clock)
       case Second(snap) => Covers(snap.lastAttempt, onDemand)
       case Checked(_, throttled, at) => at <= clock && (!throttled ==> Clear(p, at, onDemand))
       case Refreshing(at) => at <= clock && Clear(p, at, onDemand)
       case _ => true
  }

  // A returned key is in one installed key set that was at most maxStale old at a moment inside the call; a key is
  // called unknown only if an installed key set lacks it, and stale only if the one that has it is too old.
  ghost predicate OutcomeOk(p: Params, o: Outcome, installs: seq<Install>, clock: int) {
    && o.startedAt <= o.at <= clock
    && (o.answer.Found? ==>
          && 0 < o.version <= |installs|
          && Lookup(installs[o.version - 1].keys, o.kid) == Some(o.answer.key)
          && o.at - installs[o.version - 1].time <= p.maxStale)
    && (o.answer.Unknown? ==> o.version <= |installs| && (o.version > 0 ==> o.kid !in installs[o.version - 1].keys))
    && (o.answer.Stale? ==> Outdated(p, installs, o.kid, o.version, o.at))
  }

  ghost predicate Inv(p: Params, s: State) {
    && Coherent(s.cache, s.installs)
    && Spaced(p, s.onDemand)
    && Covers(s.cache.lastAttempt, s.onDemand)
    && (s.cache.lastAttempt.Some? ==> s.cache.lastAttempt.value <= s.clock)
    && (forall id | id in s.calls :: CallOk(p, s.calls[id], s.installs, s.onDemand, s.clock))
    && (forall id | id in s.calls && InLock(s.calls[id].pc) :: s.holder == Some(id))
    && (forall o | o in s.outcomes :: OutcomeOk(p, o, s.installs, s.clock))
  }

  lemma InstallKeepsInv(p: Params, s: State, keys: KeySet)
    requires Inv(p, s)
    ensures Inv(p, Installing(s, keys, s.clock))
  {
    var x := Install(keys, s.clock);
    forall id | id in s.calls ensures CallOk(p, s.calls[id], s.installs + [x], s.onDemand, s.clock) {
      assert CallOk(p, s.calls[id], s.installs, s.onDemand, s.clock);
    }
    forall o | o in s.outcomes ensures OutcomeOk(p, o, s.installs + [x], s.clock) {
      assert OutcomeOk(p, o, s.installs, s.clock);
    }
  }

  lemma TickKeepsInv(p: Params, s: State, now: int)
    requires Inv(p, s) && s.clock <= now
    ensures Inv(p, s.(clock := now))
  {
    forall id | id in s.calls ensures CallOk(p, s.calls[id], s.installs, s.onDemand, now) {
      assert CallOk(p, s.calls[id], s.installs, s.onDemand, s.clock);
    }
    forall o | o in s.outcomes ensures OutcomeOk(p, o, s.installs, now) {
      assert OutcomeOk(p, o, s.installs, s.clock);
    }
  }

  // A step that only moves one lookup to a place whose claims hold.
  lemma GotoKeepsInv(p: Params, s: State, id: nat, call: Call, pc: Pc)
    requires Inv(p, s) && id in s.calls && s.calls[id] == call
    requires CallOk(p, call.(pc := pc), s.installs, s.onDemand, s.clock)
    requires InLock(pc) ==> s.holder == Some(id)
    ensures Inv(p, Goto(s, id, call, pc))
  {
  }

  lemma FinishKeepsInv(p: Params, s: State, id: nat, call: Call, answer: Answer, version: nat)
    requires Inv(p, s) && id in s.calls && s.calls[id] == call
    requires OutcomeOk(p, Outcome(call.kid, answer, version, call.startedAt, s.clock), s.installs, s.clock)
    ensures Inv(p, Finish(s, id, call, answer, version))
  {
  }

  // Nobody else is inside the lock.
  lemma HolderKeepsInv(p: Params, s: State, holder: Option<nat>)
    requires Inv(p, s)
    requires forall other | other in s.calls && InLock(s.calls[other].pc) :: holder == Some(other)
    ensures Inv(p, s.(holder := holder))
  {
  }

  lemma AttemptKeepsInv(p: Params, s: State, id: nat, call: Call)
    requires Inv(p, s) && id in s.calls && s.calls[id] == call && call.pc.Refreshing?
    ensures Inv(p, Goto(s, id, call, Fetching)
                     .(cache := Attempted(s.cache, s.clock), onDemand := s.onDemand + [s.clock],
                       attempts := s.attempts + [s.clock]))
  {
    var onDemand := s.onDemand + [s.clock];
    assert CallOk(p, call, s.installs, s.onDemand, s.clock);
    assert Spaced(p, onDemand);
    forall other | other in s.calls && other != id ensures CallOk(p, s.calls[other], s.installs, onDemand, s.clock) {
      assert CallOk(p, s.calls[other], s.installs, s.onDemand, s.clock);
      assert !InLock(s.calls[other].pc);
    }
  }

  lemma SnapAuthentic(s: State, kid: Kid)
    requires Coherent(s.cache, s.installs)
    ensures Authentic(s.installs, kid, Snap(s.cache, kid), |s.installs|)
  {
  }

  // The steps outside the lock.
  lemma OutsideKeepsInv(p: Params, s: State, id: nat, call: Call)
    requires Inv(p, s) && id in s.calls && s.calls[id] == call && !InLock(call.pc)
    requires call.pc.WantsLock? ==> s.holder.None?
    ensures Inv(p, Step(p, s, id, call, None))
  {
    hide Inv, Authentic, Outdated;
    InvMeans(p, s, id);
    SnapAuthentic(s, call.kid);
    match call.pc
    case Started => GotoKeepsInv(p, s, id, call, First(Snap(s.cache, call.kid), |s.installs|));
    case First(snap, v) =>
      if snap.key.Some? && !IsStale(p, snap.lastFetch, s.clock) {
        EndsOk(p, s, call, snap, v);
        FinishKeepsInv(p, s, id, call, Found(snap.key.value), v);
      } else {
        GotoKeepsInv(p, s, id, call, Missed(snap));
      }
    case Missed(snap) =>
      GotoKeepsInv(p, s, id, call, if Over(snap.lastAttempt, s.clock, p.minRefetchInterval) then WantsLock else Unlocked);
    case WantsLock =>
      HolderKeepsInv(p, s, Some(id));
      GotoKeepsInv(p, s.(holder := Some(id)), id, call, Locked);
    case Unlocked => GotoKeepsInv(p, s, id, call, Final(Snap(s.cache, call.kid), |s.installs|));
    case Final(snap, v) =>
      EndsOk(p, s, call, snap, v);
      FinishKeepsInv(p, s, id, call, AnswerOf(p, snap, s.clock), v);
  }

  lemma EndsOk(p: Params, s: State, call: Call, snap: Snapshot, v: nat)
    requires Authentic(s.installs, call.kid, snap, v) && call.startedAt <= s.clock
    ensures OutcomeOk(p, Outcome(call.kid, AnswerOf(p, snap, s.clock), v, call.startedAt, s.clock), s.installs, s.clock)
  {
  }

  lemma StaleIsOutdated(p: Params, s: State, call: Call, snap: Snapshot, v: nat)
    requires Authentic(s.installs, call.kid, snap, v)
    ensures snap.key.Some? && IsStale(p, snap.lastFetch, s.clock) ==> Outdated(p, s.installs, call.kid, v, s.clock)
  {
  }

  // What the invariant says about one lookup.
  lemma InvMeans(p: Params, s: State, id: nat)
    requires Inv(p, s)
    ensures Coherent(s.cache, s.installs) && Covers(s.cache.lastAttempt, s.onDemand)
    ensures id in s.calls ==> CallOk(p, s.calls[id], s.installs, s.onDemand, s.clock)
    ensures id in s.calls && InLock(s.calls[id].pc) ==> s.holder == Some(id)
    ensures forall other | other in s.calls && InLock(s.calls[other].pc) :: s.holder == Some(other)
  {
  }

  // The steps inside the lock.
  lemma InsideKeepsInv(p: Params, s: State, id: nat, call: Call, fetched: Option<KeySet>)
    requires Inv(p, s) && id in s.calls && s.calls[id] == call && InLock(call.pc)
    ensures Inv(p, Step(p, s, id, call, fetched))
  {
    hide Inv, Authentic, Outdated;
    InvMeans(p, s, id);
    match call.pc
    case Locked => GotoKeepsInv(p, s, id, call, Second(Snap(s.cache, call.kid)));
    case Second(snap) =>
      GotoKeepsInv(p, s, id, call, Checked(snap, !Over(snap.lastAttempt, s.clock, p.minRefetchInterval), s.clock));
    case Checked(snap, throttled, at) =>
      GotoKeepsInv(p, s, id, call, if (snap.key.None? || IsStale(p, snap.lastFetch, s.clock)) && !throttled
                                   then Refreshing(at) else Releasing(false, 0));
    case Refreshing(_) => AttemptKeepsInv(p, s, id, call);
    case Fetching =>
      if fetched.Some? {
        InstallKeepsInv(p, s, fetched.value);
        GotoKeepsInv(p, Installing(s, fetched.value, s.clock), id, call, Fetched(true));
      } else {
        GotoKeepsInv(p, s, id, call, Fetched(false));
      }
    case Fetched(ok) =>
      SnapAuthentic(s, call.kid);
      GotoKeepsInv(p, s, id, call, Third(Snap(s.cache, call.kid), ok, |s.installs|));
    case Third(snap, ok, v) =>
      StaleIsOutdated(p, s, call, snap, v);
      GotoKeepsInv(p, s, id, call, Releasing(!ok && snap.key.Some? && IsStale(p, snap.lastFetch, s.clock), v));
    case Releasing(stale, v) =>
      if stale {
        FinishKeepsInv(p, s, id, call, Stale, v);
        InvMeans(p, Finish(s, id, call, Stale, v), id);
        HolderKeepsInv(p, Finish(s, id, call, Stale, v), None);
      } else {
        GotoKeepsInv(p, s, id, call, Unlocked);
        InvMeans(p, Goto(s, id, call, Unlocked), id);
        HolderKeepsInv(p, Goto(s, id, call, Unlocked), None);
      }
  }

  lemma NextKeepsInv(p: Params, s: State, e: Event)
    requires Inv(p, s) && Enabled(s, e)
    ensures Inv(p, Next(p, s, e))
  {
    TickKeepsInv(p, s, e.now);
    var s' := s.(clock := e.now);
    match e
    case Begin(id, kid, now) =>
    case Advance(id, now, fetched) =>
      hide Inv, Step;
      if InLock(s.calls[id].pc) {
        InsideKeepsInv(p, s', id, s.calls[id], fetched);
      } else {
        OutsideKeepsInv(p, s', id, s.calls[id]);
        OutsideIgnoresFetch(p, s', id, s.calls[id], fetched);
      }
    case BackgroundAttempt(now) =>
    case BackgroundInstall(keys, now) => InstallKeepsInv(p, s', keys);
  }

  lemma OutsideIgnoresFetch(p: Params, s: State, id: nat, call: Call, fetched: Option<KeySet>)
    requires !InLock(call.pc)
    ensures Step(p, s, id, call, fetched) == Step(p, s, id, call, None)
  {
  }

  lemma {:induction false} RunKeepsInv(p: Params, start: int, events: seq<Event>)
    requires Run(p, start, events).Some?
    ensures Inv(p, Run(p, start, events).value)
  {
    if events == [] {
    } else {
      RunKeepsInv(p, start, events[..|events| - 1]);
      NextKeepsInv(p, Run(p, start, events[..|events| - 1]).value, events[|events| - 1]);
    }
  }

  lemma RunSnoc(p: Params, start: int, events: seq<Event>, e: Event)
    requires Run(p, start, events).Some? && Enabled(Run(p, start, events).value, e)
    ensures Run(p, start, events + [e]) == Some(Next(p, Run(p, start, events).value, e))
  {
    hide Next, Enabled;
    assert (events + [e])[..|events|] == events;
  }

  /** On-demand fetches are rate-limited globally: among any number of concurrent lookups, with any fetch results
      and any background refreshes, attempts i < j are more than j - i intervals apart. */
  lemma {:induction false} AttemptsAreSpaced(p: Params, start: int, events: seq<Event>, i: nat, j: nat)
    requires Run(p, start, events).Some? && i < j < |Run(p, start, events).value.onDemand|
    ensures var a := Run(p, start, events).value.onDemand; a[j] - a[i] > (j - i) * p.minRefetchInterval
  {
    RunKeepsInv(p, start, events);
    SpacedSpan(p, Run(p, start, events).value.onDemand, i, j);
  }

  lemma {:induction false} SpacedSpan(p: Params, a: seq<int>, i: nat, j: nat)
    requires Spaced(p, a) && i < j < |a|
    ensures a[j] - a[i] > (j - i) * p.minRefetchInterval
  {
    assert a[j] - a[j - 1] > p.minRefetchInterval;
    if i < j - 1 {
      SpacedSpan(p, a, i, j - 1);
      assert (j - i) * p.minRefetchInterval == (j - 1 - i) * p.minRefetchInterval + p.minRefetchInterval;
    }
  }

  /** Every answer ever given is that of one installed key set: a key returned is in it, and at a moment inside the call it
      was at most maxStale old; a key called unknown is not in it; one called stale is, and it was more than maxStale
      old. */
  lemma ReturnedKeysAreFresh(p: Params, start: int, events: seq<Event>, n: nat)
    requires Run(p, start, events).Some? && n < |Run(p, start, events).value.outcomes|
    ensures var s := Run(p, start, events).value; OutcomeOk(p, s.outcomes[n], s.installs, s.clock)
  {
    RunKeepsInv(p, start, events);
    assert Run(p, start, events).value.outcomes[n] in Run(p, start, events).value.outcomes;
  }

  // The key set a step brings in: that of a fetch that succeeded, at the time of the step.
  function Success(s: State, e: Event): Option<Install> {
    match e
    case BackgroundInstall(keys, now) => Some(Install(keys, now))
    case Advance(id, now, Some(keys)) =>
      if id in s.calls && s.calls[id].pc.Fetching? then Some(Install(keys, now)) else None
    case _ => None
  }

  // The last step of a run that brought one in, read off the events.
  function LatestSuccess(p: Params, start: int, events: seq<Event>): Option<Install> {
    if events == [] then None
    else
      var front, before := events[..|events| - 1], Run(p, start, events[..|events| - 1]);
      if before.Some? && Success(before.value, events[|events| - 1]).Some?
      then Success(before.value, events[|events| - 1])
      else LatestSuccess(p, start, front)
  }

  predicate Holds(cache: Cache, i: Option<Install>) {
    if i.None? then cache.keys == map[] && cache.lastFetch.None?
    else cache.keys == i.value.keys && cache.lastFetch == Some(i.value.time)
  }

  lemma OnlySuccessInstalls(p: Params, s: State, e: Event)
    requires Enabled(s, e)
    ensures
      var i, cache, cache' := Success(s, e), s.cache, Next(p, s, e).cache;
      if i.Some? then Holds(cache', i) else cache'.keys == cache.keys && cache'.lastFetch == cache.lastFetch
  {
  }

  /** The cached keys and their time are those of the run's latest successful fetch: no failed refresh, however
      interleaved, changes either, and two successes never mix. */
  lemma {:induction false} CacheIsOneSuccess(p: Params, start: int, events: seq<Event>)
    requires Run(p, start, events).Some?
    ensures Holds(Run(p, start, events).value.cache, LatestSuccess(p, start, events))
  {
    hide Next, Enabled, Success;
    if events == [] {
    } else {
      var front := events[..|events| - 1];
      CacheIsOneSuccess(p, start, front);
      OnlySuccessInstalls(p, Run(p, start, front).value, events[|events| - 1]);
    }
  }
}
