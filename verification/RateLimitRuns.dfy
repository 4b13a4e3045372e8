/**
 Any number of clients sharing one rate-limit key. Their transactions interleave freely;
 a rollback may come late, in part, or never. The clients' clocks may disagree by up to
 `skew`, and `round` is the float64 rounding of scores, off by at most `slack`.
 */
module RateLimitRuns {
  import opened Collections
  import opened Wrappers
  import opened MemberNames
  import opened SortedSet
  import opened RateLimiter

  datatype Params = Params(limit: int, window: int, skew: nat, slack: nat)

  datatype Step =
    | Attempt(now: int, batch: nat, n: nat)
    | Rollback(members: set<Member>)
    | Count(now: int)
    | Expire(now: int)

  // admitted maps every member ever admitted to the time of its call; denied holds the
  // members of refused calls, and used all members ever sent. latest is the largest time
  // stamp so far, touched the largest one that (re)set the key's expiry.
  datatype State = State(
    entries: ZSet,
    admitted: map<Member, int>,
    denied: set<Member>,
    used: set<Member>,
    latest: Option<int>,
    touched: Option<int>)

  const INIT := State(map[], map[], {}, {}, None, None)

  ghost predicate Rounding(round: int -> int, slack: nat) {
    forall x {:trigger round(x)} :: x - slack <= round(x) <= x + slack
  }

  predicate InOrder(p: Params, s: State, now: int) {
    s.latest.Some? ==> s.latest.value - p.skew <= now
  }

  function Later(latest: Option<int>, now: int): Option<int> {
    if latest.Some? && latest.value > now then latest else Some(now)
  }

  predicate Enabled(p: Params, s: State, step: Step) {
    match step
    case Attempt(now, batch, n) => InOrder(p, s, now) && Names(now, batch, n) !! s.used
    case Rollback(members) => members <= s.denied
    case Count(now) => InOrder(p, s, now)
    case Expire(now) => InOrder(p, s, now) && s.touched.Some? && s.touched.value + p.window <= now
  }

  predicate Allows(p: Params, round: int -> int, s: State, now: int, n: nat) {
    Decide(p.limit, p.window, |Trimmed(round, p.window, s.entries, now)|, n).allowed
  }

  // The state after a transaction stamped now sent these members and left these entries.
  function Decided(s: State, now: int, sent: set<Member>, allowed: bool, entries: ZSet): State {
    State(entries,
          if allowed then s.admitted + (map m | m in sent :: now) else s.admitted,
          if allowed then s.denied else s.denied + sent,
          s.used + sent,
          Later(s.latest, now),
          Later(s.touched, now))
  }

  function Next(p: Params, round: int -> int, s: State, step: Step): State {
    match step
    case Attempt(now, batch, n) =>
      Decided(s, now, Names(now, batch, n), Allows(p, round, s, now, n),
              Attempted(round, p.window, s.entries, now, batch, n))
    case Rollback(members) => s.(entries := Remove(s.entries, members))
    case Count(now) => s.(entries := Trimmed(round, p.window, s.entries, now), latest := Later(s.latest, now))
    case Expire(now) => s.(entries := map[], latest := Later(s.latest, now))
  }

  // The state after the steps, or None when some step was not possible.
  function Run(p: Params, round: int -> int, steps: seq<Step>): Option<State> {
    if steps == [] then Some(INIT)
    else
      var before := Run(p, round, steps[..|steps| - 1]);
      if before.Some? && Enabled(p, before.value, steps[|steps| - 1])
      then Some(Next(p, round, before.value, steps[|steps| - 1]))
      else None
  }

  // The requests admitted at a time in (lo, hi].
  function Window(admitted: map<Member, int>, lo: int, hi: int): set<Member> {
    set m | m in admitted && lo < admitted[m] <= hi
  }

  function Quota(p: Params): nat {
    if p.limit < 0 then 0 else p.limit
  }

  ghost predicate Bounded(p: Params, admitted: map<Member, int>) {
    forall lo, hi {:trigger Window(admitted, lo, hi)} |
      hi - lo <= p.window - p.skew - 2 * p.slack :: |Window(admitted, lo, hi)| <= Quota(p)
  }

  // An admitted request is still in the set, or every clock has moved past it.
  ghost predicate Kept(p: Params, s: State) {
    forall m | m in s.admitted ::
      && s.latest.Some? && s.touched.Some?
      && (|| (m in s.entries && s.admitted[m] - p.slack <= s.entries[m])
          || s.admitted[m] <= s.latest.value - p.window + 2 * p.slack)
      && s.admitted[m] <= s.touched.value <= s.latest.value
  }

  ghost predicate Owned(s: State) {
    && s.entries.Keys <= s.admitted.Keys + s.denied
    && s.admitted.Keys + s.denied == s.used
    && s.admitted.Keys !! s.denied
    && (s.touched.Some? ==> s.latest.Some? && s.touched.value <= s.latest.value)
  }

  ghost predicate Inv(p: Params, s: State) {
    Owned(s) && Kept(p, s) && Bounded(p, s.admitted)
  }

  // after is entries, trimmed at cutoff, plus the members sent with scores of at least floor.
  ghost predicate Transacted(cutoff: int, floor: int, entries: ZSet, sent: set<Member>, after: ZSet) {
    && after.Keys == Trim(entries, cutoff).Keys + sent
    && (forall m | m in sent :: floor <= after[m])
    && (forall m | m in entries && m in after && m !in sent :: after[m] == entries[m])
  }

  lemma AttemptScores(round: int -> int, slack: nat, window: int, entries: ZSet, now: int, batch: nat, n: nat)
    requires Rounding(round, slack)
    ensures Transacted(round(now - window), now - slack, entries, Names(now, batch, n),
                       Attempted(round, window, entries, now, batch, n))
  {
    forall m | m in Names(now, batch, n) ensures now - slack <= Batch(round, now, batch, n)[m] {
      assert Batch(round, now, batch, n)[m] == round(now + m.index);
    }
  }

  lemma AttemptKeepsKept(p: Params, s: State, now: int, sent: set<Member>, cutoff: int, s': State)
    requires Kept(p, s) && cutoff <= now - p.window + p.slack
    requires Transacted(cutoff, now - p.slack, s.entries, sent, s'.entries)
    requires s'.latest == Later(s.latest, now) && s'.touched == Later(s.touched, now)
    requires s.touched.Some? ==> s.latest.Some? && s.touched.value <= s.latest.value
    requires s'.admitted == s.admitted || s'.admitted == s.admitted + (map m | m in sent :: now)
    requires s.admitted.Keys !! sent
    ensures Kept(p, s')
  {
    forall m | m in s'.admitted
      ensures && (|| (m in s'.entries && s'.admitted[m] - p.slack <= s'.entries[m])
                  || s'.admitted[m] <= s'.latest.value - p.window + 2 * p.slack)
              && s'.admitted[m] <= s'.touched.value <= s'.latest.value
    {
      if m !in sent && m in s.entries && m !in s'.entries {
        assert s.entries[m] <= cutoff;
      }
    }
  }

  // A trim at cutoff spares everything admitted within the (shortened) window before now.
  lemma TrimSpares(p: Params, s: State, now: int, cutoff: int, lo: int, hi: int)
    requires cutoff <= now - p.window + p.slack && Kept(p, s) && InOrder(p, s, now)
    requires now <= hi && hi - lo <= p.window - p.skew - 2 * p.slack
    ensures Window(s.admitted, lo, hi) <= Trim(s.entries, cutoff).Keys
  {
  }

  lemma WindowAfter(admitted: map<Member, int>, sent: set<Member>, now: int, lo: int, hi: int)
    requires sent !! admitted.Keys
    ensures Window(admitted + (map m | m in sent :: now), lo, hi)
         == Window(admitted, lo, hi) + if lo < now <= hi then sent else {}
  {
  }

  lemma NewWindow(p: Params, s: State, now: int, sent: set<Member>, cutoff: int, lo: int, hi: int)
    requires cutoff <= now - p.window + p.slack && Kept(p, s) && Bounded(p, s.admitted) && InOrder(p, s, now)
    requires sent !! s.admitted.Keys && |Trim(s.entries, cutoff).Keys| + |sent| <= p.limit
    requires hi - lo <= p.window - p.skew - 2 * p.slack
    ensures |Window(s.admitted + (map m | m in sent :: now), lo, hi)| <= Quota(p)
  {
    WindowAfter(s.admitted, sent, now, lo, hi);
    if lo < now <= hi {
      TrimSpares(p, s, now, cutoff, lo, hi);
      SubsetCount(Window(s.admitted, lo, hi), Trim(s.entries, cutoff).Keys);
      assert Window(s.admitted, lo, hi) !! sent;
    } else {
      assert Window(s.admitted, lo, hi) + {} == Window(s.admitted, lo, hi);
    }
  }

  lemma AttemptKeepsBound(p: Params, s: State, now: int, sent: set<Member>, cutoff: int)
    requires cutoff <= now - p.window + p.slack && Kept(p, s) && Bounded(p, s.admitted) && InOrder(p, s, now)
    requires sent !! s.admitted.Keys && |Trim(s.entries, cutoff).Keys| + |sent| <= p.limit
    ensures Bounded(p, s.admitted + (map m | m in sent :: now))
  {
    var after := s.admitted + (map m | m in sent :: now);
    forall lo, hi {:trigger Window(after, lo, hi)} | hi - lo <= p.window - p.skew - 2 * p.slack
      ensures |Window(after, lo, hi)| <= Quota(p)
    {
      NewWindow(p, s, now, sent, cutoff, lo, hi);
    }
  }

  lemma DecidedKeepsOwned(s: State, now: int, sent: set<Member>, allowed: bool, cutoff: int, entries: ZSet)
    requires Owned(s) && sent !! s.used && entries.Keys == Trim(s.entries, cutoff).Keys + sent
    ensures Owned(Decided(s, now, sent, allowed, entries))
  {
    var s' := Decided(s, now, sent, allowed, entries);
    assert s'.admitted.Keys == if allowed then s.admitted.Keys + sent else s.admitted.Keys;
  }

  lemma DecidedKeepsInv(p: Params, s: State, now: int, sent: set<Member>, allowed: bool, cutoff: int, entries: ZSet)
    requires cutoff <= now - p.window + p.slack && Inv(p, s) && InOrder(p, s, now) && sent !! s.used
    requires Transacted(cutoff, now - p.slack, s.entries, sent, entries)
    requires allowed ==> |Trim(s.entries, cutoff).Keys| + |sent| <= p.limit
    ensures Inv(p, Decided(s, now, sent, allowed, entries))
  {
    var s' := Decided(s, now, sent, allowed, entries);
    AttemptKeepsKept(p, s, now, sent, cutoff, s');
    if allowed { AttemptKeepsBound(p, s, now, sent, cutoff); }
    DecidedKeepsOwned(s, now, sent, allowed, cutoff, entries);
  }

  lemma AllowedFits(p: Params, round: int -> int, s: State, now: int, batch: nat, n: nat)
    ensures Allows(p, round, s, now, n)
        ==> |Trim(s.entries, round(now - p.window)).Keys| + |Names(now, batch, n)| <= p.limit
  {
    NamesCount(now, batch, n);
    var kept := Trim(s.entries, round(now - p.window));
    assert |kept.Keys| == |kept|;
  }

  lemma AttemptKeepsInv(p: Params, round: int -> int, s: State, now: int, batch: nat, n: nat)
    requires Rounding(round, p.slack) && Inv(p, s) && Enabled(p, s, Attempt(now, batch, n))
    ensures Inv(p, Next(p, round, s, Attempt(now, batch, n)))
  {
    AttemptScores(round, p.slack, p.window, s.entries, now, batch, n);
    AllowedFits(p, round, s, now, batch, n);
    assert round(now - p.window) <= now - p.window + p.slack;
    DecidedKeepsInv(p, s, now, Names(now, batch, n), Allows(p, round, s, now, n), round(now - p.window),
                    Attempted(round, p.window, s.entries, now, batch, n));
  }

  lemma NextKeepsInv(p: Params, round: int -> int, s: State, step: Step)
    requires Rounding(round, p.slack) && Inv(p, s) && Enabled(p, s, step)
    ensures Inv(p, Next(p, round, s, step))
  {
    match step
    case Attempt(now, batch, n) => AttemptKeepsInv(p, round, s, now, batch, n);
    case Rollback(members) =>
    case Count(now) =>
      assert round(now - p.window) <= now - p.window + p.slack;
    case Expire(now) =>
  }

  lemma {:induction false} RunKeepsInv(p: Params, round: int -> int, steps: seq<Step>)
    requires Rounding(round, p.slack) && Run(p, round, steps).Some?
    ensures Inv(p, Run(p, round, steps).value)
  {
    if steps == [] {
      forall lo, hi ensures |Window(INIT.admitted, lo, hi)| == 0 {
        assert Window(INIT.admitted, lo, hi) == {};
      }
    } else {
      RunKeepsInv(p, round, steps[..|steps| - 1]);
      NextKeepsInv(p, round, Run(p, round, steps[..|steps| - 1]).value, steps[|steps| - 1]);
    }
  }

  /** The window bound: in every run, whatever is pending or was never rolled back, no interval
      (hi - window, hi] holds more than limit admitted requests. Clock skew and score rounding
      shorten the interval by skew + 2 * slack, and BoundIsTight shows that no longer one will do. */
  lemma {:induction false} WindowBound(p: Params, round: int -> int, steps: seq<Step>, lo: int, hi: int)
    requires Rounding(round, p.slack) && Run(p, round, steps).Some?
    requires hi - lo <= p.window - p.skew - 2 * p.slack
    ensures |Window(Run(p, round, steps).value.admitted, lo, hi)| <= Quota(p)
  {
    RunKeepsInv(p, round, steps);
  }

  // With clocks in step and exact scores, that is the full configured window.
  lemma {:induction false} ExactWindowBound(p: Params, steps: seq<Step>, t: int)
    requires p.skew == p.slack == 0 && Run(p, EXACT, steps).Some?
    ensures |Window(Run(p, EXACT, steps).value.admitted, t - p.window, t)| <= Quota(p)
  {
    hide *;
    ExactRounds();
    WindowBound(p, EXACT, steps, t - p.window, t);
  }

  lemma ExactRounds()
    ensures Rounding(EXACT, 0)
  {
  }

  // ----- What the set holds, in terms of the log of admissions -----

  // Every entry has the score of its name, and every admission is filed under the time in its name.
  ghost predicate Scored(round: int -> int, s: State) {
    && (forall m | m in s.entries :: s.entries[m] == round(m.nanos + m.index))
    && (forall m | m in s.admitted :: s.admitted[m] == m.nanos)
  }

  lemma TrimKeepsScore(round: int -> int, window: int, entries: ZSet, now: int, m: Member)
    requires m in Trimmed(round, window, entries, now)
    ensures m in entries && entries[m] == Trimmed(round, window, entries, now)[m]
  {
  }

  lemma AttemptKeepsScored(p: Params, round: int -> int, s: State, now: int, batch: nat, n: nat)
    requires Scored(round, s)
    ensures Scored(round, Next(p, round, s, Attempt(now, batch, n)))
  {
    hide Allows, Names, Batch, Trimmed;
    var s' := Next(p, round, s, Attempt(now, batch, n));
    forall m | m in s'.entries
      ensures s'.entries[m] == round(m.nanos + m.index)
    {
      if m in Batch(round, now, batch, n) {
        assert m in Names(now, batch, n);
      } else {
        TrimKeepsScore(round, p.window, s.entries, now, m);
      }
    }
  }

  lemma NextKeepsScored(p: Params, round: int -> int, s: State, step: Step)
    requires Scored(round, s)
    ensures Scored(round, Next(p, round, s, step))
  {
    if step.Attempt? {
      AttemptKeepsScored(p, round, s, step.now, step.batch, step.n);
    }
  }

  lemma {:induction false} RunKeepsScored(p: Params, round: int -> int, steps: seq<Step>)
    requires Run(p, round, steps).Some?
    ensures Scored(round, Run(p, round, steps).value)
  {
    hide Scored, Next, Enabled;
    if steps == [] {
      NothingScored(round);
    } else {
      RunKeepsScored(p, round, steps[..|steps| - 1]);
      NextKeepsScored(p, round, Run(p, round, steps[..|steps| - 1]).value, steps[|steps| - 1]);
    }
  }

  lemma NothingScored(round: int -> int)
    ensures Scored(round, INIT)
  {
  }

  // The admissions with a time after t, and those that score after t.
  function StampedAfter(admitted: map<Member, int>, t: int): set<Member> {
    set m | m in admitted && t < admitted[m]
  }

  function ScoredAfter(admitted: map<Member, int>, t: int): set<Member> {
    set m | m in admitted && t < admitted[m] + m.index
  }

  // The entries a transaction stamped now counts.
  function Counted(p: Params, round: int -> int, s: State, now: int): set<Member> {
    Trimmed(round, p.window, s.entries, now).Keys
  }

  // A recent admission is still there.
  lemma RecentIsCounted(p: Params, round: int -> int, s: State, now: int)
    requires Rounding(round, p.slack) && Kept(p, s) && InOrder(p, s, now)
    ensures StampedAfter(s.admitted, now - p.window + p.skew + 2 * p.slack) <= Counted(p, round, s, now)
  {
    forall m | m in StampedAfter(s.admitted, now - p.window + p.skew + 2 * p.slack)
      ensures m in Counted(p, round, s, now)
    {
      assert m in s.entries && s.admitted[m] - p.slack <= s.entries[m];
      assert round(now - p.window) <= now - p.window + p.slack;
    }
  }

  // An admission that is still there scores within the window, or before 1970.
  lemma CountedIsRecent(p: Params, round: int -> int, s: State, now: int, m: Member)
    requires Rounding(round, p.slack) && Scored(round, s)
    requires m in Counted(p, round, s, now) && m in s.admitted
    ensures m in ScoredAfter(s.admitted, now - p.window - 2 * p.slack) || m.nanos + m.index < p.slack
  {
    assert s.entries[m] == round(m.nanos + m.index) <= m.nanos + m.index + p.slack;
    assert round(now - p.window) >= now - p.window - p.slack;
    assert m.nanos + m.index - p.slack <= round(m.nanos + m.index);
  }

  lemma Partition(s: State, kept: set<Member>)
    requires kept <= s.admitted.Keys + s.denied && s.admitted.Keys !! s.denied
    ensures |kept| == |kept * s.admitted.Keys| + |kept * s.denied|
  {
    assert kept == kept * s.admitted.Keys + kept * s.denied;
  }

  lemma CountSplits(p: Params, round: int -> int, s: State, now: int, n: nat)
    requires Owned(s)
    ensures var kept := Counted(p, round, s, now);
      Allows(p, round, s, now, n) <==> |kept * s.admitted.Keys| + |kept * s.denied| + n <= p.limit
  {
    var kept := Counted(p, round, s, now);
    Partition(s, kept);
    assert |kept| == |Trimmed(round, p.window, s.entries, now)|;
  }

  /** In every reachable state the count behind a decision is that of two kinds of entries. The admitted ones are, up to
      clock skew and rounding, those of the log that are younger than the window: all that were stamped within it are
      there, and none is there that does not score within it (or before 1970, where nothing is trimmed). The rest
      are denied requests not rolled back, and they are the only error against a count of admissions. */
  lemma {:induction false} LeftoversAreTheOnlyError(p: Params, round: int -> int, steps: seq<Step>, now: int, n: nat)
    requires Rounding(round, p.slack) && Run(p, round, steps).Some?
    ensures var s := Run(p, round, steps).value;
            var kept := Counted(p, round, s, now);
      && (Allows(p, round, s, now, n) <==> |kept * s.admitted.Keys| + |kept * s.denied| + n <= p.limit)
      && (InOrder(p, s, now) ==> StampedAfter(s.admitted, now - p.window + p.skew + 2 * p.slack) <= kept)
      && (forall m | m in kept && m in s.admitted ::
            m in ScoredAfter(s.admitted, now - p.window - 2 * p.slack) || m.nanos + m.index < p.slack)
  {
    hide *;
    RunKeepsInv(p, round, steps);
    RunKeepsScored(p, round, steps);
    var s := Run(p, round, steps).value;
    InvMeans(p, s);
    CountSplits(p, round, s, now, n);
    if InOrder(p, s, now) {
      RecentIsCounted(p, round, s, now);
    }
    forall m | m in Counted(p, round, s, now) && m in s.admitted
      ensures m in ScoredAfter(s.admitted, now - p.window - 2 * p.slack) || m.nanos + m.index < p.slack
    {
      CountedIsRecent(p, round, s, now, m);
    }
  }

  lemma InvMeans(p: Params, s: State)
    requires Inv(p, s)
    ensures Owned(s) && Kept(p, s)
  {
  }

  /** With exact scores and clocks in order and past 1970: the admitted entries counted lie between the log's requests
      stamped within the window and those that score within it, so without leftovers the decision is that of the log,
      exactly so when all batches are single requests. */
  lemma {:induction false} ExactCount(p: Params, steps: seq<Step>, now: int, n: nat)
    requires p.skew == p.slack == 0 && Run(p, EXACT, steps).Some? && InOrder(p, Run(p, EXACT, steps).value, now)
    requires forall m | m in Run(p, EXACT, steps).value.admitted :: 0 <= m.nanos
    ensures var s := Run(p, EXACT, steps).value;
            var kept := Counted(p, EXACT, s, now);
      && StampedAfter(s.admitted, now - p.window) <= kept * s.admitted.Keys
      && kept * s.admitted.Keys <= ScoredAfter(s.admitted, now - p.window)
      && (kept !! s.denied && (forall m | m in s.admitted :: m.index == 0) ==>
            (Allows(p, EXACT, s, now, n) <==> |StampedAfter(s.admitted, now - p.window)| + n <= p.limit))
  {
    hide Run, Counted, Allows, Rounding, InOrder;
    ExactRounds();
    LeftoversAreTheOnlyError(p, EXACT, steps, now, n);
    var s := Run(p, EXACT, steps).value;
    var kept := Counted(p, EXACT, s, now);
    if kept !! s.denied && forall m | m in s.admitted :: m.index == 0 {
      assert kept * s.denied == {};
      assert StampedAfter(s.admitted, now - p.window) == ScoredAfter(s.admitted, now - p.window);
      assert kept * s.admitted.Keys == StampedAfter(s.admitted, now - p.window);
    }
  }

  /** A rollback gives the quota back: from any state of any run all denied requests may be rolled back at once, and then
      every decision counts admitted requests alone, the same ones as before. */
  lemma {:induction false} RollbackFrees(p: Params, round: int -> int, steps: seq<Step>, now: int, n: nat)
    requires Rounding(round, p.slack) && Run(p, round, steps).Some?
    ensures
      var s := Run(p, round, steps).value;
      var run := Run(p, round, steps + [Rollback(s.denied)]);
      && run.Some? && run.value.admitted == s.admitted
      && var kept, kept' := Counted(p, round, s, now), Counted(p, round, run.value, now);
         && kept' == kept * s.admitted.Keys
         && (Allows(p, round, run.value, now, n) <==> |kept'| + n <= p.limit)
  {
    hide Run, Bounded, Kept, Rounding, Counted;
    RunKeepsInv(p, round, steps);
    var s := Run(p, round, steps).value;
    RunSnoc(p, round, steps, s, Rollback(s.denied));
    CountedWithout(p, round, s, now);
    CountedAllows(p, round, Run(p, round, steps + [Rollback(s.denied)]).value, now, n);
  }

  lemma CountedWithout(p: Params, round: int -> int, s: State, now: int)
    requires Owned(s)
    ensures Counted(p, round, s.(entries := Remove(s.entries, s.denied)), now) == Counted(p, round, s, now) * s.admitted.Keys
  {
  }

  lemma CountedAllows(p: Params, round: int -> int, s: State, now: int, n: nat)
    ensures Allows(p, round, s, now, n) <==> |Counted(p, round, s, now)| + n <= p.limit
  {
    assert |Counted(p, round, s, now)| == |Trimmed(round, p.window, s.entries, now)|;
  }

  // A monotone rounding that is off by up to slack, as a coarse float64 grid is.
  function Coarse(slack: nat): int -> int {
    x => if 0 <= x <= 2 * slack then slack else x
  }

  lemma RunSnoc(p: Params, round: int -> int, steps: seq<Step>, s: State, step: Step)
    requires Run(p, round, steps) == Some(s) && Enabled(p, s, step)
    ensures Run(p, round, steps + [step]) == Some(Next(p, round, s, step))
  {
    assert (steps + [step])[..|steps|] == steps;
  }

  lemma SingleBatch(round: int -> int, admitted: map<Member, int>, now: int, batch: nat)
    ensures var m := Member(now, batch, 0);
      && Names(now, batch, 1) == {m}
      && Batch(round, now, batch, 1) == map[m := round(now)]
      && admitted + (map m' | m' in Names(now, batch, 1) :: now) == admitted[m := now]
  {
    assert Names(now, batch, 1) == {Member(now, batch, 0)};
  }

  lemma TrimShrinks(entries: ZSet, cutoff: int)
    ensures |Trim(entries, cutoff)| <= |entries|
  {
    SubsetCount(Trim(entries, cutoff).Keys, entries.Keys);
    assert |Trim(entries, cutoff).Keys| == |Trim(entries, cutoff)| && |entries.Keys| == |entries|;
  }

  lemma SingleEntries(round: int -> int, window: int, entries: ZSet, now: int, batch: nat)
    ensures Attempted(round, window, entries, now, batch, 1)
         == Trimmed(round, window, entries, now) + map[Member(now, batch, 0) := round(now)]
  {
    hide Names, Batch, Trimmed;
    SingleBatch(round, map[], now, batch);
  }

  lemma SingleAllowed(p: Params, round: int -> int, s: State, now: int)
    requires |s.entries| < p.limit
    ensures Allows(p, round, s, now, 1)
  {
    TrimShrinks(s.entries, round(now - p.window));
  }

  // A single request is admitted while the set is not full.
  lemma SingleAdmission(p: Params, round: int -> int, s: State, now: int, batch: nat)
    requires |s.entries| < p.limit
    ensures var m, s' := Member(now, batch, 0), Next(p, round, s, Attempt(now, batch, 1));
      && s'.admitted == s.admitted[m := now] && s'.used == s.used + {m}
      && s'.latest == Later(s.latest, now) && s'.touched == Later(s.touched, now)
  {
    hide Names, Batch, Trimmed, Attempted, Allows;
    SingleAllowed(p, round, s, now);
    SingleBatch(round, s.admitted, now, batch);
  }

  lemma SingleEnabled(p: Params, s: State, now: int, batch: nat)
    requires InOrder(p, s, now) && Member(now, batch, 0) !in s.used
    ensures Enabled(p, s, Attempt(now, batch, 1))
  {
    assert Names(now, batch, 1) == {Member(now, batch, 0)};
  }

  // Single requests 1..k, all stamped t, and the admissions they become.
  function Singles(t: int, k: nat): seq<Step> {
    if k == 0 then [] else Singles(t, k - 1) + [Attempt(t, k, 1)]
  }

  function Filed(t: int, k: nat): map<Member, int> {
    if k == 0 then map[] else Filed(t, k - 1)[Member(t, k, 0) := t]
  }

  lemma {:induction false} FiledHolds(t: int, k: nat)
    ensures |Filed(t, k)| == k
    ensures forall m | m in Filed(t, k) :: Filed(t, k)[m] == t && m.batch <= k
  {
    if k == 0 {
    } else {
      FiledHolds(t, k - 1);
      assert Member(t, k, 0) !in Filed(t, k - 1);
    }
  }

  // The set holds at most k entries, none of them scored above top.
  predicate Small(entries: ZSet, k: nat, top: int) {
    |entries| <= k && forall m | m in entries :: 0 <= entries[m] <= top
  }

  lemma SmallGrows(round: int -> int, window: int, entries: ZSet, k: nat, top: int, m: Member, now: int)
    requires Small(entries, k, top) && 0 <= round(now) <= top
    ensures Small(Trimmed(round, window, entries, now) + map[m := round(now)], k + 1, top)
  {
    var kept := Trimmed(round, window, entries, now);
    TrimShrinks(entries, round(now - window));
    assert (kept + map[m := round(now)]).Keys == kept.Keys + {m};
    assert |kept.Keys| == |kept| && |(kept + map[m := round(now)]).Keys| == |kept + map[m := round(now)]|;
  }

  lemma SingleKeepsSmall(p: Params, round: int -> int, s: State, now: int, batch: nat, k: nat, top: int)
    requires Small(s.entries, k, top) && 0 <= round(now) <= top
    ensures Small(Next(p, round, s, Attempt(now, batch, 1)).entries, k + 1, top)
  {
    hide Small, Trimmed, Attempted, Names, Allows;
    SingleEntries(round, p.window, s.entries, now, batch);
    SmallGrows(round, p.window, s.entries, k, top, Member(now, batch, 0), now);
  }

  // The state after k single requests.
  ghost predicate Filled(p: Params, s: State, t: int, k: nat) {
    && Small(s.entries, k, p.slack)
    && s.admitted == Filed(t, k)
    && NamedBy(s.used, k)
    && s.latest == s.touched == if k == 0 then None else Some(t)
  }

  lemma FilledMeans(p: Params, s: State, t: int, k: nat)
    requires Filled(p, s, t, k)
    ensures Small(s.entries, k, p.slack) && |s.entries| <= k && s.admitted == Filed(t, k)
    ensures forall m | m in s.used :: m.batch <= k
    ensures s.latest.Some? ==> s.latest == Some(t)
  {
    hide Filed;
  }

  lemma FilledGrows(p: Params, s: State, s': State, t: int, k: nat)
    requires Filled(p, s, t, k) && Small(s'.entries, k + 1, p.slack)
    requires s'.admitted == s.admitted[Member(t, k + 1, 0) := t] && s'.used == s.used + {Member(t, k + 1, 0)}
    requires s'.latest == Later(s.latest, t) && s'.touched == Later(s.touched, t)
    ensures Filled(p, s', t, k + 1)
  {
    hide Small;
    assert Filed(t, k + 1) == Filed(t, k)[Member(t, k + 1, 0) := t];
  }

  lemma FilledStep(p: Params, round: int -> int, s: State, t: int, k: nat)
    requires k < p.limit && Filled(p, s, t, k) && 0 <= round(t) <= p.slack
    ensures var e := Attempt(t, k + 1, 1);
      Enabled(p, s, e) && Filled(p, Next(p, round, s, e), t, k + 1)
  {
    hide Next, Enabled, Trimmed, Small, Filled, Filed;
    FilledMeans(p, s, t, k);
    SingleEnabled(p, s, t, k + 1);
    SingleAdmission(p, round, s, t, k + 1);
    SingleKeepsSmall(p, round, s, t, k + 1, k, p.slack);
    FilledGrows(p, s, Next(p, round, s, Attempt(t, k + 1, 1)), t, k);
  }

  lemma {:induction false} SinglesRun(p: Params, k: nat)
    requires k <= p.limit
    ensures var s := Run(p, Coarse(p.slack), Singles(2 * p.slack, k));
      s.Some? && Filled(p, s.value, 2 * p.slack, k)
  {
    hide Run, Filled, Enabled, Next, Coarse;
    CoarseRounds(p.slack);
    var t, round := 2 * p.slack, Coarse(p.slack);
    if k == 0 {
      NoSteps(p, round);
    } else {
      SinglesRun(p, k - 1);
      var s := Run(p, round, Singles(t, k - 1)).value;
      FilledStep(p, round, s, t, k - 1);
      RunSnoc(p, round, Singles(t, k - 1), s, Attempt(t, k, 1));
    }
  }

  lemma NoSteps(p: Params, round: int -> int)
    ensures Run(p, round, []) == Some(INIT) && Filled(p, INIT, 2 * p.slack, 0)
  {
  }

  lemma TrimEmpties(p: Params, round: int -> int, s: State, now: int, k: nat)
    requires Small(s.entries, k, round(now - p.window))
    ensures Next(p, round, s, Count(now)) == s.(entries := map[], latest := Later(s.latest, now))
  {
    assert Trimmed(round, p.window, s.entries, now) == map[];
  }

  lemma FiledInWindow(t: int, k: nat, m: Member, hi: int)
    requires t <= hi && m.batch > k
    ensures |Window(Filed(t, k)[m := hi], t - 1, hi)| == k + 1
  {
    FiledHolds(t, k);
    var admitted := Filed(t, k)[m := hi];
    assert Window(admitted, t - 1, hi) == Filed(t, k).Keys + {m};
    assert |Filed(t, k).Keys| == |Filed(t, k)|;
  }

  lemma CountEnabled(p: Params, s: State, now: int)
    requires InOrder(p, s, now)
    ensures Enabled(p, s, Count(now))
  {
  }

  // A full set is trimmed as soon as rounding allows, and one more request is admitted by a clock that lags.
  lemma OneTooMany(p: Params, round: int -> int, s: State, t: int)
    requires p.limit >= 1 && t <= p.window - p.skew && Filled(p, s, t, p.limit) && round(0) == p.slack
    ensures var hi := p.window - p.skew;
            var s' := Next(p, round, s, Count(p.window));
            var e := Attempt(hi, p.limit + 1, 1);
      && Enabled(p, s, Count(p.window)) && Enabled(p, s', e)
      && Next(p, round, s', e).admitted == Filed(t, p.limit)[Member(hi, p.limit + 1, 0) := hi]
  {
    hide Next, Trimmed, Small, Filed, Filled, Enabled;
    FilledMeans(p, s, t, p.limit);
    TrimEmpties(p, round, s, p.window, p.limit);
    CountEnabled(p, s, p.window);
    var s' := Next(p, round, s, Count(p.window));
    SingleEnabled(p, s', p.window - p.skew, p.limit + 1);
    SingleAdmission(p, round, s', p.window - p.skew, p.limit + 1);
  }

  lemma CoarseRounds(slack: nat)
    ensures Rounding(Coarse(slack), slack)
    ensures Coarse(slack)(0) == Coarse(slack)(2 * slack) == slack
  {
  }

  /** One unit more and the bound fails: for every positive limit and every window, skew and slack there is a run that
      admits limit + 1 requests in an interval one longer than the bound allows. With skew and slack zero this is
      the configured window itself, which therefore is also the best possible. */
  lemma BoundIsTight(p: Params) returns (steps: seq<Step>, lo: int, hi: int)
    requires p.limit >= 1 && p.skew + 2 * p.slack <= p.window
    ensures Rounding(Coarse(p.slack), p.slack)
    ensures hi - lo == p.window - p.skew - 2 * p.slack + 1
    ensures Run(p, Coarse(p.slack), steps).Some?
    ensures |Window(Run(p, Coarse(p.slack), steps).value.admitted, lo, hi)| == p.limit + 1
  {
    hide *;
    CoarseRounds(p.slack);
    var round, t := Coarse(p.slack), 2 * p.slack;
    lo, hi := t - 1, p.window - p.skew;
    SinglesRun(p, p.limit);
    var singles := Singles(t, p.limit);
    var full := Run(p, round, singles).value;
    OneTooMany(p, round, full, t);
    RunSnoc(p, round, singles, full, Count(p.window));
    var trimmed := Next(p, round, full, Count(p.window));
    RunSnoc(p, round, singles + [Count(p.window)], trimmed, Attempt(hi, p.limit + 1, 1));
    steps := singles + [Count(p.window)] + [Attempt(hi, p.limit + 1, 1)];
    FiledInWindow(t, p.limit, Member(hi, p.limit + 1, 0), hi);
  }
}
