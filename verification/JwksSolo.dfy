/** The interleaved lookup, left alone, is the lookup of the cache object. */
module JwksSolo {
  import opened Jwks
  import opened JwksRuns
  import opened Wrappers

  // How many steps a lookup has left at most.
  function Rank(pc: Pc): nat {
    match pc
    case Started => 14
    case First(_, _) => 13
    case Missed(_) => 12
    case WantsLock => 11
    case Locked => 10
    case Second(_) => 9
    case Checked(_, _, _) => 8
    case Refreshing(_) => 7
    case Fetching => 6
    case Fetched(_) => 5
    case Third(_, _, _) => 4
    case Releasing(_, _) => 3
    case Unlocked => 2
    case Final(_, _) => 1
  }

  // The time at which a lookup with these clock readings takes its next step.
  function TimeAt(pc: Pc, t: Times): int {
    match pc
    case Started => t.first
    case First(_, _) => t.first
    case Missed(_) => t.rate
    case WantsLock => t.rate
    case Locked => t.rate
    case Second(_) => t.throttle
    case Checked(_, _, _) => t.stale
    case Refreshing(_) => t.attempt
    case Fetching => t.install
    case Fetched(_) => t.install
    case Third(_, _, _) => t.third
    case Releasing(_, _) => t.third
    case Unlocked => t.third
    case Final(_, _) => t.final
  }

  function Move(s: State, id: nat, t: Times, fetched: Option<KeySet>): Event
    requires id in s.calls
  {
    Advance(id, TimeAt(s.calls[id].pc, t), fetched)
  }

  // One step of a lone lookup.
  function Moved(p: Params, s: State, id: nat, t: Times, fetched: Option<KeySet>): State
    requires id in s.calls
  {
    Next(p, s, Move(s, id, t, fetched))
  }

  lemma RankFalls(p: Params, s: State, id: nat, t: Times, fetched: Option<KeySet>)
    requires id in s.calls
    ensures var s' := Moved(p, s, id, t, fetched);
      id in s'.calls ==> Rank(s'.calls[id].pc) < Rank(s.calls[id].pc)
  {
  }

  // The lookup alone, step by step to its end.
  function Alone(p: Params, s: State, id: nat, t: Times, fetched: Option<KeySet>): State
    decreases if id in s.calls then Rank(s.calls[id].pc) else 0
  {
    if id !in s.calls then s
    else
      RankFalls(p, s, id, t, fetched);
      Alone(p, Moved(p, s, id, t, fetched), id, t, fetched)
  }

  // It ends with this cache and this answer, one more outcome.
  predicate Ends(p: Params, s: State, id: nat, t: Times, fetched: Option<KeySet>, cache: Cache, answer: Answer) {
    var s' := Alone(p, s, id, t, fetched);
    && s'.cache == cache && id !in s'.calls
    && |s'.outcomes| == |s.outcomes| + 1 && s'.outcomes[|s.outcomes|].answer == answer
    && s'.outcomes[..|s.outcomes|] == s.outcomes
  }

  // A step that adds no outcome passes the end on.
  lemma EndsBefore(p: Params, s: State, id: nat, t: Times, fetched: Option<KeySet>, cache: Cache, answer: Answer)
    requires id in s.calls && Moved(p, s, id, t, fetched).outcomes == s.outcomes
    requires Ends(p, Moved(p, s, id, t, fetched), id, t, fetched, cache, answer)
    ensures Ends(p, s, id, t, fetched, cache, answer)
  {
    hide Moved;
  }

  lemma EndsNow(p: Params, s: State, id: nat, t: Times, fetched: Option<KeySet>)
    requires id in s.calls && id !in Moved(p, s, id, t, fetched).calls
    ensures Alone(p, s, id, t, fetched) == Moved(p, s, id, t, fetched)
  {
    hide Moved;
  }

  predicate At(s: State, id: nat, kid: Kid, cache: Cache, pc: Pc) {
    id in s.calls && s.calls[id].kid == kid && s.calls[id].pc == pc && s.cache == cache
  }

  // From the last look on.
  lemma FromUnlocked(p: Params, s: State, id: nat, kid: Kid, c: Cache, t: Times, fetched: Option<KeySet>)
    requires At(s, id, kid, c, Unlocked)
    ensures Ends(p, s, id, t, fetched, c, AnswerOf(p, Snap(c, kid), t.final))
  {
    hide AnswerOf;
    var s1 := Moved(p, s, id, t, fetched);
    EndsNow(p, s1, id, t, fetched);
    EndsBefore(p, s, id, t, fetched, c, AnswerOf(p, Snap(c, kid), t.final));
  }

  lemma FromReleasing(p: Params, s: State, id: nat, kid: Kid, c: Cache, stale: bool, v: nat, t: Times, fetched: Option<KeySet>)
    requires At(s, id, kid, c, Releasing(stale, v))
    ensures Ends(p, s, id, t, fetched, c, if stale then Stale else AnswerOf(p, Snap(c, kid), t.final))
  {
    hide AnswerOf;
    if stale {
      EndsNow(p, s, id, t, fetched);
    } else {
      FromUnlocked(p, Moved(p, s, id, t, fetched), id, kid, c, t, fetched);
      EndsBefore(p, s, id, t, fetched, c, AnswerOf(p, Snap(c, kid), t.final));
    }
  }

  // From a fetch that is over: a failed one that leaves a stale key is reported as such, which the last look would do too.
  lemma FromFetched(p: Params, s: State, id: nat, kid: Kid, c: Cache, ok: bool, t: Times, fetched: Option<KeySet>)
    requires At(s, id, kid, c, Fetched(ok)) && Ordered(t)
    ensures Ends(p, s, id, t, fetched, c, AnswerOf(p, Snap(c, kid), t.final))
  {
    hide Ends;
    var s1 := Moved(p, s, id, t, fetched);
    var s2 := Moved(p, s1, id, t, fetched);
    var stale := !ok && kid in c.keys && IsStale(p, c.lastFetch, t.third);
    assert At(s2, id, kid, c, Releasing(stale, |s.installs|));
    FromReleasing(p, s2, id, kid, c, stale, |s.installs|, t, fetched);
    EndsBefore(p, s1, id, t, fetched, c, AnswerOf(p, Snap(c, kid), t.final));
    EndsBefore(p, s, id, t, fetched, c, AnswerOf(p, Snap(c, kid), t.final));
  }

  // What a refresh leaves.
  function Refreshed(c: Cache, t: Times, fetched: Option<KeySet>): Cache {
    if fetched.Some? then Installed(Attempted(c, t.attempt), fetched.value, t.install) else Attempted(c, t.attempt)
  }

  lemma FromRefreshing(p: Params, s: State, id: nat, kid: Kid, c: Cache, at: int, t: Times, fetched: Option<KeySet>)
    requires At(s, id, kid, c, Refreshing(at)) && Ordered(t)
    ensures Ends(p, s, id, t, fetched, Refreshed(c, t, fetched), AnswerOf(p, Snap(Refreshed(c, t, fetched), kid), t.final))
  {
    hide Ends, AnswerOf;
    var s1 := Moved(p, s, id, t, fetched);
    var s2 := Moved(p, s1, id, t, fetched);
    var c' := Refreshed(c, t, fetched);
    assert At(s2, id, kid, c', Fetched(fetched.Some?));
    FromFetched(p, s2, id, kid, c', fetched.Some?, t, fetched);
    EndsBefore(p, s1, id, t, fetched, c', AnswerOf(p, Snap(c', kid), t.final));
    EndsBefore(p, s, id, t, fetched, c', AnswerOf(p, Snap(c', kid), t.final));
  }

  // From the second look, under the lock.
  lemma FromLocked(p: Params, s: State, id: nat, kid: Kid, c: Cache, t: Times, fetched: Option<KeySet>)
    requires At(s, id, kid, c, Locked) && Ordered(t)
    requires (kid !in c.keys || IsStale(p, c.lastFetch, t.first)) && Over(c.lastAttempt, t.rate, p.minRefetchInterval)
    ensures Ends(p, s, id, t, fetched, Refreshed(c, t, fetched), AnswerOf(p, Snap(Refreshed(c, t, fetched), kid), t.final))
  {
    hide Ends, AnswerOf, Refreshed;
    var s1 := Moved(p, s, id, t, fetched);
    var s2 := Moved(p, s1, id, t, fetched);
    var s3 := Moved(p, s2, id, t, fetched);
    var c' := Refreshed(c, t, fetched);
    assert At(s1, id, kid, c, Second(Snap(c, kid)));
    assert At(s2, id, kid, c, Checked(Snap(c, kid), false, t.throttle));
    assert At(s3, id, kid, c, Refreshing(t.throttle));
    FromRefreshing(p, s3, id, kid, c, t.throttle, t, fetched);
    EndsBefore(p, s2, id, t, fetched, c', AnswerOf(p, Snap(c', kid), t.final));
    EndsBefore(p, s1, id, t, fetched, c', AnswerOf(p, Snap(c', kid), t.final));
    EndsBefore(p, s, id, t, fetched, c', AnswerOf(p, Snap(c', kid), t.final));
  }

  lemma FromMissed(p: Params, s: State, id: nat, kid: Kid, c: Cache, t: Times, fetched: Option<KeySet>)
    requires At(s, id, kid, c, Missed(Snap(c, kid))) && Ordered(t)
    requires kid !in c.keys || IsStale(p, c.lastFetch, t.first)
    ensures var c' := AfterLookup(p, c, kid, t, fetched);
      Ends(p, s, id, t, fetched, c', AnswerOf(p, Snap(c', kid), t.final))
  {
    hide Ends, AnswerOf;
    var s1 := Moved(p, s, id, t, fetched);
    var c' := AfterLookup(p, c, kid, t, fetched);
    if Over(c.lastAttempt, t.rate, p.minRefetchInterval) {
      var s2 := Moved(p, s1, id, t, fetched);
      assert At(s2, id, kid, c, Locked);
      FromLocked(p, s2, id, kid, c, t, fetched);
      EndsBefore(p, s1, id, t, fetched, c', AnswerOf(p, Snap(c', kid), t.final));
    } else {
      assert At(s1, id, kid, c, Unlocked);
      FromUnlocked(p, s1, id, kid, c, t, fetched);
    }
    EndsBefore(p, s, id, t, fetched, c', AnswerOf(p, Snap(c', kid), t.final));
  }

  lemma FromStarted(p: Params, s: State, id: nat, kid: Kid, c: Cache, t: Times, fetched: Option<KeySet>)
    requires At(s, id, kid, c, Started) && Ordered(t)
    ensures Ends(p, s, id, t, fetched, AfterLookup(p, c, kid, t, fetched), Answered(p, c, kid, t, fetched))
  {
    var s1 := Moved(p, s, id, t, fetched);
    assert At(s1, id, kid, c, First(Snap(c, kid), |s.installs|));
    if kid in c.keys && !IsStale(p, c.lastFetch, t.first) {
      EndsNow(p, s1, id, t, fetched);
    } else {
      AnsweredMeans(p, c, kid, t, fetched);
      FromFirst(p, s1, id, kid, c, |s.installs|, t, fetched);
    }
    EndsBefore(p, s, id, t, fetched, AfterLookup(p, c, kid, t, fetched), Answered(p, c, kid, t, fetched));
  }

  lemma FromFirst(p: Params, s: State, id: nat, kid: Kid, c: Cache, v: nat, t: Times, fetched: Option<KeySet>)
    requires At(s, id, kid, c, First(Snap(c, kid), v)) && Ordered(t)
    requires kid !in c.keys || IsStale(p, c.lastFetch, t.first)
    ensures var c' := AfterLookup(p, c, kid, t, fetched);
      Ends(p, s, id, t, fetched, c', AnswerOf(p, Snap(c', kid), t.final))
  {
    hide Ends, AnswerOf, AfterLookup;
    var s1 := Moved(p, s, id, t, fetched);
    var c' := AfterLookup(p, c, kid, t, fetched);
    assert At(s1, id, kid, c, Missed(Snap(c, kid)));
    FromMissed(p, s1, id, kid, c, t, fetched);
    EndsBefore(p, s, id, t, fetched, c', AnswerOf(p, Snap(c', kid), t.final));
  }

  lemma AnsweredMeans(p: Params, c: Cache, kid: Kid, t: Times, fetched: Option<KeySet>)
    requires kid !in c.keys || IsStale(p, c.lastFetch, t.first)
    ensures Answered(p, c, kid, t, fetched) == AnswerOf(p, Snap(AfterLookup(p, c, kid, t, fetched), kid), t.final)
  {
    hide AfterLookup;
  }

  // ----- And it is a run -----

  predicate IsOwn(e: Event, id: nat) {
    e.Advance? && e.id == id
  }

  // The next reading is not before the clock, and the lock is free if it is wanted.
  predicate OnTime(s: State, id: nat, t: Times) {
    id in s.calls ==>
      && s.clock <= TimeAt(s.calls[id].pc, t)
      && (Rank(s.calls[id].pc) >= 11 ==> s.holder.None?)
  }

  lemma StaysOnTime(p: Params, s: State, id: nat, t: Times, fetched: Option<KeySet>)
    requires Ordered(t) && id in s.calls && OnTime(s, id, t)
    ensures Enabled(s, Move(s, id, t, fetched)) && OnTime(Moved(p, s, id, t, fetched), id, t)
  {
  }

  lemma {:induction false} AloneRuns(p: Params, start: int, events: seq<Event>, id: nat, t: Times, fetched: Option<KeySet>)
    returns (more: seq<Event>)
    requires Run(p, start, events).Some? && Ordered(t) && OnTime(Run(p, start, events).value, id, t)
    ensures Run(p, start, events + more) == Some(Alone(p, Run(p, start, events).value, id, t, fetched))
    ensures forall i | 0 <= i < |more| :: IsOwn(more[i], id)
    decreases
      var s := Run(p, start, events).value;
      if id in s.calls then Rank(s.calls[id].pc) else 0
  {
    hide Run, OnTime, Enabled, Next, Rank;
    var s := Run(p, start, events).value;
    if id !in s.calls {
      more := [];
      assert events + more == events;
    } else {
      var e := Move(s, id, t, fetched);
      StaysOnTime(p, s, id, t, fetched);
      RankFalls(p, s, id, t, fetched);
      RunSnoc(p, start, events, e);
      RankIsPositive(s.calls[id].pc);
      var rest := AloneRuns(p, start, events + [e], id, t, fetched);
      more := [e] + rest;
      assert events + [e] + rest == events + more;
    }
  }

  lemma RankIsPositive(pc: Pc)
    ensures Rank(pc) > 0
  {
  }

  /** A lookup whose steps run uninterrupted, from any reachable cache and with any clock readings and fetch result,
      leaves the cache and gives the answer that the object's PublicKey promises. */
  lemma LoneLookup(p: Params, start: int, events: seq<Event>, id: nat, t: Times, fetched: Option<KeySet>)
    returns (more: seq<Event>)
    requires Run(p, start, events).Some? && Ordered(t)
    requires
      var s := Run(p, start, events).value;
      id in s.calls && s.calls[id].pc == Started && s.holder.None? && s.clock <= t.first
    ensures (forall i | 0 <= i < |more| :: IsOwn(more[i], id)) && Run(p, start, events + more).Some?
    ensures
      var s, s' := Run(p, start, events).value, Run(p, start, events + more).value;
      && s'.cache == AfterLookup(p, s.cache, s.calls[id].kid, t, fetched)
      && |s'.outcomes| == |s.outcomes| + 1
      && s'.outcomes[|s.outcomes|].answer == Answered(p, s.cache, s.calls[id].kid, t, fetched)
  {
    hide Run, Alone, AfterLookup, Answered;
    var s := Run(p, start, events).value;
    more := AloneRuns(p, start, events, id, t, fetched);
    FromStarted(p, s, id, s.calls[id].kid, s.cache, t, fetched);
  }
}
