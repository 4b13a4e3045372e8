/** No lookup gives up idly: why one that ends without a key did not, or did, try to fetch it. */
module JwksProgress {
  import opened Jwks
  import opened JwksRuns
  import opened Wrappers

  // Some attempt, anybody's, was recorded at most minRefetchInterval before `since`, or later.
  ghost predicate Tried(p: Params, attempts: seq<int>, since: int) {
    exists i | 0 <= i < |attempts| :: since - p.minRefetchInterval <= attempts[i]
  }

  // Some key set was installed at `since` or later.
  ghost predicate Renewed(installs: seq<Install>, since: int) {
    exists i | 0 <= i < |installs| :: since <= installs[i].time
  }

  predicate Lacks(p: Params, cache: Cache, kid: Kid, now: int) {
    kid !in cache.keys || IsStale(p, cache.lastFetch, now)
  }

  // The snapshot still tells the state of the cache.
  predicate Agrees(snap: Snapshot, cache: Cache, kid: Kid) {
    snap.key == Lookup(cache.keys, kid) && snap.lastFetch == cache.lastFetch
  }

  predicate Known(lastAttempt: Option<int>, attempts: seq<int>) {
    lastAttempt.Some? ==> lastAttempt.value in attempts
  }

  // What a lookup at each place can say for itself.
  ghost predicate CallExcused(p: Params, s: State, call: Call) {
    var renewed := Renewed(s.installs, call.startedAt);
    var tried := Tried(p, s.attempts, call.startedAt);
    && call.startedAt <= s.clock
    && match call.pc
       case Started => true
       case First(snap, _) => Known(snap.lastAttempt, s.attempts) && (renewed || Agrees(snap, s.cache, call.kid))
       case Missed(snap) => Known(snap.lastAttempt, s.attempts) && (renewed || Lacks(p, s.cache, call.kid, s.clock))
       case WantsLock => renewed || Lacks(p, s.cache, call.kid, s.clock)
       case Locked => renewed || Lacks(p, s.cache, call.kid, s.clock)
       case Second(snap) =>
         && Known(snap.lastAttempt, s.attempts)
         && (renewed || (Agrees(snap, s.cache, call.kid) && Lacks(p, s.cache, call.kid, s.clock)))
       case Checked(snap, throttled, _) =>
         && (throttled ==> tried)
         && (renewed || (Agrees(snap, s.cache, call.kid) && Lacks(p, s.cache, call.kid, s.clock)))
       case Refreshing(_) => true
       case _ => tried || renewed
  }

  // A lookup that ended without a key: an attempt was recorded from minRefetchInterval before it began to its end,
  // or a key set installed while it ran.
  ghost predicate Excused(p: Params, o: Outcome, attempts: seq<int>, installs: seq<Install>) {
    o.answer.Found?
    || (exists i | 0 <= i < |attempts| :: o.startedAt - p.minRefetchInterval <= attempts[i] <= o.at)
    || exists i | 0 <= i < |installs| :: o.startedAt <= installs[i].time <= o.at
  }

  ghost predicate Excuses(p: Params, s: State) {
    && Known(s.cache.lastAttempt, s.attempts)
    && (forall i | 0 <= i < |s.attempts| :: s.attempts[i] <= s.clock)
    && (forall i | 0 <= i < |s.installs| :: s.installs[i].time <= s.clock)
    && (forall id | id in s.calls :: CallExcused(p, s, s.calls[id]))
    && (forall o | o in s.outcomes :: Excused(p, o, s.attempts, s.installs))
  }

  // What can happen around a lookup that does not move: time passes, attempts and key sets are added.
  predicate Later(s: State, s': State) {
    && s.clock <= s'.clock
    && s.attempts <= s'.attempts && s.installs <= s'.installs
    && (s'.installs == s.installs ==> s'.cache.keys == s.cache.keys && s'.cache.lastFetch == s.cache.lastFetch)
    && (|s'.installs| > |s.installs| ==> s'.installs[|s'.installs| - 1].time == s'.clock)
  }

  lemma TriedLater(p: Params, s: State, s': State, since: int)
    requires Later(s, s') && Tried(p, s.attempts, since)
    ensures Tried(p, s'.attempts, since)
  {
    var i :| 0 <= i < |s.attempts| && since - p.minRefetchInterval <= s.attempts[i];
    assert s'.attempts[i] == s.attempts[i];
  }

  lemma RenewedLater(s: State, s': State, since: int)
    requires Later(s, s') && since <= s.clock
    ensures Renewed(s.installs, since) || s'.installs != s.installs ==> Renewed(s'.installs, since)
  {
    if s'.installs != s.installs {
      assert since <= s'.installs[|s'.installs| - 1].time;
    }
  }

  lemma KnownLater(lastAttempt: Option<int>, s: State, s': State)
    requires Later(s, s') && Known(lastAttempt, s.attempts)
    ensures Known(lastAttempt, s'.attempts)
  {
    if lastAttempt.Some? {
      var i :| 0 <= i < |s.attempts| && s.attempts[i] == lastAttempt.value;
      assert s'.attempts[i] == lastAttempt.value;
    }
  }

  lemma ExcusedLater(p: Params, s: State, s': State, call: Call)
    requires Later(s, s') && CallExcused(p, s, call)
    ensures CallExcused(p, s', call)
  {
    hide Later, Known, Tried, Renewed;
    LaterMeans(s, s');
    RenewedLater(s, s', call.startedAt);
    if Tried(p, s.attempts, call.startedAt) {
      TriedLater(p, s, s', call.startedAt);
    }
    match call.pc {
      case First(snap, _) => KnownLater(snap.lastAttempt, s, s');
      case Missed(snap) => KnownLater(snap.lastAttempt, s, s');
      case Second(snap) => KnownLater(snap.lastAttempt, s, s');
      case _ =>
    }
  }

  lemma LaterMeans(s: State, s': State)
    requires Later(s, s')
    ensures s.clock <= s'.clock
    ensures s'.installs == s.installs ==> s'.cache.keys == s.cache.keys && s'.cache.lastFetch == s.cache.lastFetch
  {
  }

  lemma OutcomeLater(p: Params, s: State, s': State, o: Outcome)
    requires Later(s, s') && Excused(p, o, s.attempts, s.installs)
    ensures Excused(p, o, s'.attempts, s'.installs)
  {
    assert forall i | 0 <= i < |s.attempts| :: s'.attempts[i] == s.attempts[i];
    assert forall i | 0 <= i < |s.installs| :: s'.installs[i] == s.installs[i];
  }

  // A step of lookup id, or of nobody: the rest is later.
  lemma NextIsLater(p: Params, s: State, e: Event)
    requires Enabled(s, e)
    ensures Later(s, Next(p, s, e))
  {
  }

  lemma BooksKept(p: Params, s: State, e: Event)
    requires Excuses(p, s) && Enabled(s, e)
    ensures
      var s' := Next(p, s, e);
      && Known(s'.cache.lastAttempt, s'.attempts)
      && (forall i | 0 <= i < |s'.attempts| :: s'.attempts[i] <= s'.clock)
      && (forall i | 0 <= i < |s'.installs| :: s'.installs[i].time <= s'.clock)
  {
    hide CallExcused, Excused;
  }

  // How a lookup that has moved stands: excused where it is, or ended with an excuse.
  ghost predicate Moved(p: Params, s: State, s': State, id: nat)
    requires id in s.calls
  {
    if id in s'.calls then CallExcused(p, s', s'.calls[id])
    else
      && |s'.outcomes| == |s.outcomes| + 1
      && var o := s'.outcomes[|s.outcomes|];
         && o.startedAt == s.calls[id].startedAt && o.at == s'.clock
         && (o.answer.Found? || Tried(p, s'.attempts, o.startedAt) || Renewed(s'.installs, o.startedAt))
  }

  lemma MoverOutside(p: Params, s: State, id: nat, now: int, fetched: Option<KeySet>)
    requires s.clock <= now && id in s.calls && !InLock(s.calls[id].pc)
    requires Known(s.cache.lastAttempt, s.attempts) && CallExcused(p, s.(clock := now), s.calls[id])
    ensures Moved(p, s, Next(p, s, Advance(id, now, fetched)), id)
  {
    hide Tried, Renewed, Known;
    var call := s.calls[id];
    if call.pc.Missed? {
      ThrottleExcuses(p, s.attempts, call.startedAt, call.pc.snap.lastAttempt, now);
    }
  }

  // The steps inside the lock up to the decision to refresh.
  lemma MoverDecides(p: Params, s: State, id: nat, now: int, fetched: Option<KeySet>)
    requires s.clock <= now && id in s.calls
    requires s.calls[id].pc.Locked? || s.calls[id].pc.Second? || s.calls[id].pc.Checked?
    requires Known(s.cache.lastAttempt, s.attempts) && CallExcused(p, s.(clock := now), s.calls[id])
    ensures Moved(p, s, Next(p, s, Advance(id, now, fetched)), id)
  {
    hide Tried, Renewed, Known;
    var call := s.calls[id];
    if call.pc.Second? {
      ThrottleExcuses(p, s.attempts, call.startedAt, call.pc.snap.lastAttempt, now);
    }
  }

  // The steps from there on.
  lemma MoverRefreshes(p: Params, s: State, id: nat, now: int, fetched: Option<KeySet>)
    requires s.clock <= now && id in s.calls && InLock(s.calls[id].pc)
    requires !s.calls[id].pc.Locked? && !s.calls[id].pc.Second? && !s.calls[id].pc.Checked?
    requires CallExcused(p, s.(clock := now), s.calls[id])
    ensures Moved(p, s, Next(p, s, Advance(id, now, fetched)), id)
  {
    hide Tried, Renewed, Known;
    var call := s.calls[id];
    match call.pc {
      case Refreshing(_) => AttemptExcuses(p, s.attempts, call.startedAt, now);
      case Fetching =>
        RenewedGrows(s.installs, Install(if fetched.Some? then fetched.value else map[], now), call.startedAt);
      case _ =>
    }
  }

  lemma RenewedGrows(installs: seq<Install>, x: Install, since: int)
    ensures Renewed(installs, since) ==> Renewed(installs + [x], since)
  {
    if Renewed(installs, since) {
      var i :| 0 <= i < |installs| && since <= installs[i].time;
      assert (installs + [x])[i] == installs[i];
    }
  }

  lemma ThrottleExcuses(p: Params, attempts: seq<int>, since: int, lastAttempt: Option<int>, now: int)
    requires since <= now && Known(lastAttempt, attempts)
    ensures !Over(lastAttempt, now, p.minRefetchInterval) ==> Tried(p, attempts, since)
  {
    if !Over(lastAttempt, now, p.minRefetchInterval) {
      var i :| 0 <= i < |attempts| && attempts[i] == lastAttempt.value;
    }
  }

  lemma AttemptExcuses(p: Params, attempts: seq<int>, since: int, now: int)
    requires since <= now
    ensures Tried(p, attempts + [now], since)
  {
    assert (attempts + [now])[|attempts|] == now;
  }

  lemma MoverExcused(p: Params, s: State, id: nat, now: int, fetched: Option<KeySet>)
    requires s.clock <= now && id in s.calls && CallExcused(p, s, s.calls[id]) && Known(s.cache.lastAttempt, s.attempts)
    ensures Moved(p, s, Next(p, s, Advance(id, now, fetched)), id)
  {
    hide CallExcused, Moved, Next, Known;
    TickIsLater(s, now);
    ExcusedLater(p, s, s.(clock := now), s.calls[id]);
    if !InLock(s.calls[id].pc) {
      MoverOutside(p, s, id, now, fetched);
    } else if s.calls[id].pc.Locked? || s.calls[id].pc.Second? || s.calls[id].pc.Checked? {
      MoverDecides(p, s, id, now, fetched);
    } else {
      MoverRefreshes(p, s, id, now, fetched);
    }
  }

  lemma TickIsLater(s: State, now: int)
    requires s.clock <= now
    ensures Later(s, s.(clock := now))
  {
  }

  // Lookups that do not move, and outcomes already there.
  lemma OthersStay(p: Params, s: State, e: Event, x: nat)
    requires Enabled(s, e) && (e.Advance? || e.Begin? ==> x != e.id)
    ensures
      var s' := Next(p, s, e);
      (x in s'.calls <==> x in s.calls) && (x in s.calls ==> s'.calls[x] == s.calls[x])
  {
  }

  lemma OutcomesGrow(p: Params, s: State, e: Event)
    requires Enabled(s, e)
    ensures
      var s' := Next(p, s, e);
      && |s.outcomes| <= |s'.outcomes| <= |s.outcomes| + 1 && s'.outcomes[..|s.outcomes|] == s.outcomes
      && (|s'.outcomes| == |s.outcomes| + 1 <==> e.Advance? && e.id !in s'.calls)
  {
  }

  // A lookup that has just ended is excused for good.
  lemma EndIsExcused(p: Params, s: State, o: Outcome)
    requires o.at == s.clock
    requires forall i | 0 <= i < |s.attempts| :: s.attempts[i] <= s.clock
    requires forall i | 0 <= i < |s.installs| :: s.installs[i].time <= s.clock
    requires o.answer.Found? || Tried(p, s.attempts, o.startedAt) || Renewed(s.installs, o.startedAt)
    ensures Excused(p, o, s.attempts, s.installs)
  {
  }

  lemma CallsExcused(p: Params, s: State, e: Event, x: nat)
    requires Excuses(p, s) && Enabled(s, e) && x in Next(p, s, e).calls
    ensures CallExcused(p, Next(p, s, e), Next(p, s, e).calls[x])
  {
    hide CallExcused, Next, Excused, Moved;
    var s' := Next(p, s, e);
    NextIsLater(p, s, e);
    if e.Begin? && x == e.id {
      BeginExcused(p, s, e);
    } else if e.Advance? && x == e.id {
      MoverExcused(p, s, x, e.now, e.fetched);
      MovedMeans(p, s, s', x);
    } else {
      OthersStay(p, s, e, x);
      ExcusedLater(p, s, s', s.calls[x]);
    }
  }

  lemma MovedMeans(p: Params, s: State, s': State, id: nat)
    requires id in s.calls && Moved(p, s, s', id)
    ensures id in s'.calls ==> CallExcused(p, s', s'.calls[id])
  {
  }

  lemma BeginExcused(p: Params, s: State, e: Event)
    requires Enabled(s, e) && e.Begin?
    ensures e.id in Next(p, s, e).calls && CallExcused(p, Next(p, s, e), Next(p, s, e).calls[e.id])
  {
  }

  lemma OutcomesExcused(p: Params, s: State, e: Event, k: nat)
    requires Excuses(p, s) && Enabled(s, e) && k < |Next(p, s, e).outcomes|
    ensures Excused(p, Next(p, s, e).outcomes[k], Next(p, s, e).attempts, Next(p, s, e).installs)
  {
    hide CallExcused, Next, Excused, Known;
    var s' := Next(p, s, e);
    OutcomesGrow(p, s, e);
    if k < |s.outcomes| {
      assert s'.outcomes[k] == s'.outcomes[..|s.outcomes|][k] == s.outcomes[k];
      assert s.outcomes[k] in s.outcomes;
      NextIsLater(p, s, e);
      OutcomeLater(p, s, s', s.outcomes[k]);
    } else {
      MoverExcused(p, s, e.id, e.now, e.fetched);
      BooksKept(p, s, e);
      EndIsExcused(p, s', s'.outcomes[k]);
    }
  }

  lemma NextKeepsExcuses(p: Params, s: State, e: Event)
    requires Excuses(p, s) && Enabled(s, e)
    ensures Excuses(p, Next(p, s, e))
  {
    hide CallExcused, Next, Excused, Known, Enabled;
    var s' := Next(p, s, e);
    BooksKept(p, s, e);
    forall x | x in s'.calls
      ensures CallExcused(p, s', s'.calls[x])
    {
      CallsExcused(p, s, e, x);
    }
    forall o | o in s'.outcomes
      ensures Excused(p, o, s'.attempts, s'.installs)
    {
      var k :| 0 <= k < |s'.outcomes| && s'.outcomes[k] == o;
      OutcomesExcused(p, s, e, k);
    }
  }

  lemma {:induction false} RunKeepsExcuses(p: Params, start: int, events: seq<Event>)
    requires Run(p, start, events).Some?
    ensures Excuses(p, Run(p, start, events).value)
  {
    hide Excuses, Next, Enabled;
    if events == [] {
      NothingToExcuse(p, start);
    } else {
      RunKeepsExcuses(p, start, events[..|events| - 1]);
      NextKeepsExcuses(p, Run(p, start, events[..|events| - 1]).value, events[|events| - 1]);
    }
  }

  lemma NothingToExcuse(p: Params, start: int)
    ensures Excuses(p, Initial(start))
  {
  }

  /** No lookup ends without a key idly, in any interleaving: an attempt to fetch, its own or another's, was recorded no
      earlier than minRefetchInterval before it began and no later than its end, or a key set was installed while
      it ran. */
  lemma {:induction false} NobodyGivesUpIdly(p: Params, start: int, events: seq<Event>, k: nat)
    requires Run(p, start, events).Some? && k < |Run(p, start, events).value.outcomes|
    requires !Run(p, start, events).value.outcomes[k].answer.Found?
    ensures
      var s := Run(p, start, events).value;
      var o := s.outcomes[k];
      || (exists i | 0 <= i < |s.attempts| :: o.startedAt - p.minRefetchInterval <= s.attempts[i] <= o.at)
      || exists i | 0 <= i < |s.installs| :: o.startedAt <= s.installs[i].time <= o.at
  {
    hide Run, CallExcused;
    RunKeepsExcuses(p, start, events);
    assert Run(p, start, events).value.outcomes[k] in Run(p, start, events).value.outcomes;
  }

  // A slow background fetch, begun more than the interval before a lookup of "k", lands while the lookup waits for the lock.
  function Landed(p: Params): State {
    var now := p.minRefetchInterval + 1;
    State(Cache(map["k" := 7], Some(now), Some(0)), None, map[1 := Call("k", now, WantsLock)],
          [Install(map["k" := 7], now)], [], [0], [], now)
  }

  lemma SlowFetchLands(p: Params) returns (events: seq<Event>)
    ensures Run(p, 0, events) == Some(Landed(p))
  {
    hide Run;
    var now := p.minRefetchInterval + 1;
    var a := Advance(1, now, None);
    RunNothing(p);
    RunSnoc(p, 0, [], BackgroundAttempt(0));
    events := [] + [BackgroundAttempt(0)];
    RunSnoc(p, 0, events, Begin(1, "k", now));
    events := events + [Begin(1, "k", now)];
    RunSnoc(p, 0, events, a);
    RunSnoc(p, 0, events + [a], a);
    RunSnoc(p, 0, events + [a] + [a], a);
    events := events + [a] + [a] + [a];
    var s := Run(p, 0, events).value;
    assert s.calls == map[1 := Call("k", now, WantsLock)] && s.attempts == [0];
    RunSnoc(p, 0, events, BackgroundInstall(map["k" := 7], now));
    events := events + [BackgroundInstall(map["k" := 7], now)];
    assert Run(p, 0, events).value.installs == [Install(map["k" := 7], now)];
  }

  lemma RunNothing(p: Params)
    ensures Run(p, 0, []) == Some(Initial(0))
  {
  }

  /** The last alternative is needed, whatever the intervals: a lookup that finds a key set just installed under the lock,
      and pauses until that is stale, gives up though no attempt was made since long before it began. */
  lemma InstalledMeanwhile(p: Params) returns (events: seq<Event>)
    ensures Run(p, 0, events).Some?
    ensures
      var s := Run(p, 0, events).value;
      && |s.outcomes| == 1 && s.outcomes[0].answer == Stale
      && forall i | 0 <= i < |s.attempts| :: s.attempts[i] < s.outcomes[0].startedAt - p.minRefetchInterval
  {
    hide Run;
    var landed := SlowFetchLands(p);
    var now := p.minRefetchInterval + 1;
    var a := Advance(1, now, None);
    RunSnoc(p, 0, landed, a);
    RunSnoc(p, 0, landed + [a], a);
    RunSnoc(p, 0, landed + [a] + [a], a);
    var checked := landed + [a] + [a] + [a];
    var s := Run(p, 0, checked).value;
    var snap := Snapshot(Some(7), Some(now), Some(0));
    assert s.calls[1] == Call("k", now, Checked(snap, false, now)) && s.outcomes == [] && s.attempts == [0];
    events := PauseTilStale(p, checked);
  }

  lemma PauseTilStale(p: Params, events: seq<Event>) returns (all: seq<Event>)
    requires Run(p, 0, events).Some?
    requires
      var s, now := Run(p, 0, events).value, p.minRefetchInterval + 1;
      && s.clock == now && 1 in s.calls && s.outcomes == [] && s.attempts == [0]
      && s.calls[1] == Call("k", now, Checked(Snapshot(Some(7), Some(now), Some(0)), false, now))
      && s.cache == Cache(map["k" := 7], Some(now), Some(0))
    ensures Run(p, 0, all).Some?
    ensures
      var s := Run(p, 0, all).value;
      && |s.outcomes| == 1 && s.outcomes[0].answer == Stale && s.outcomes[0].startedAt == p.minRefetchInterval + 1
      && s.attempts == [0]
  {
    hide Run;
    var now := p.minRefetchInterval + 1;
    var a, last := Advance(1, now, None), Advance(1, now + p.maxStale + 1, None);
    RunSnoc(p, 0, events, a);
    RunSnoc(p, 0, events + [a], a);
    RunSnoc(p, 0, events + [a] + [a], a);
    RunSnoc(p, 0, events + [a] + [a] + [a], last);
    all := events + [a] + [a] + [a] + [last];
  }
}
