/**
 One caller at a time, rollbacks that succeed, exact scores: when is the sorted set a mere cache
 of a plain, never trimmed log of admissions, so that nothing a caller sees tells them apart?
 */
module RateLimitLog {
  import opened Wrappers
  import opened MemberNames
  import opened SortedSet
  import opened RateLimiter

  // Expire is Redis dropping the key once the time to live set by the latest Ask is over.
  datatype Call = Ask(now: int, batch: nat, n: nat) | Peek(now: int) | Expire(now: int)

  datatype Answer = Decided(decision: Decision) | Counted(count: nat) | NoAnswer

  // What the limiter does with one whole call.
  function Serve(limit: int, window: int, entries: ZSet, call: Call): (ZSet, Answer) {
    var kept := Trimmed(EXACT, window, entries, call.now);
    match call
    case Ask(now, batch, n) =>
      var decision := Decide(limit, window, |kept|, n);
      (if decision.allowed then Attempted(EXACT, window, entries, now, batch, n)
       else RolledBack(EXACT, window, entries, now, batch, n), Decided(decision))
    case Peek(now) => (kept, Counted(|kept|))
    case Expire(now) => (map[], NoAnswer)
  }

  function ServeAll(limit: int, window: int, calls: seq<Call>): (r: (ZSet, seq<Answer>))
    ensures |r.1| == |calls|
  {
    if calls == [] then (map[], [])
    else
      var (entries, answers) := ServeAll(limit, window, calls[..|calls| - 1]);
      var (entries', answer) := Serve(limit, window, entries, calls[|calls| - 1]);
      (entries', answers + [answer])
  }

  // The logged requests younger than the cutoff.
  function Young(log: ZSet, cutoff: int): set<Member> {
    set m | m in log && cutoff < log[m]
  }

  // The reference limiter: append admitted requests, count the young ones, forget nothing.
  function Judge(limit: int, window: int, log: ZSet, call: Call): (ZSet, Answer) {
    var count := |Young(log, call.now - window)|;
    match call
    case Ask(now, batch, n) =>
      if count + n <= limit
      then (log + Batch(EXACT, now, batch, n), Decided(Decision(true, limit - count - n, window, limit)))
      else (log, Decided(Decision(false, 0, window, limit)))
    case Peek(now) => (log, Counted(count))
    case Expire(now) => (log, NoAnswer)
  }

  function JudgeAll(limit: int, window: int, calls: seq<Call>): (r: (ZSet, seq<Answer>))
    ensures |r.1| == |calls|
  {
    if calls == [] then (map[], [])
    else
      var (log, answers) := JudgeAll(limit, window, calls[..|calls| - 1]);
      var (log', answer) := Judge(limit, window, log, calls[|calls| - 1]);
      (log', answers + [answer])
  }

  // A family of histories: no time stamp before earliest, no batch above largest, keys that expire or not.
  datatype Scope = Scope(earliest: int, largest: nat, expires: bool)

  function LastAsk(calls: seq<Call>): Option<int> {
    if calls == [] then None
    else if calls[|calls| - 1].Ask? then Some(calls[|calls| - 1].now)
    else LastAsk(calls[..|calls| - 1])
  }

  // A clock that never runs backwards, and batch numbers up to last that only grow: the counter is shared by
  // all keys of the process, so on one key numbers may be missing.
  predicate Serial(scope: Scope, window: int, calls: seq<Call>, last: nat) {
    calls != [] ==>
      var front, call := calls[..|calls| - 1], calls[|calls| - 1];
      && scope.earliest <= call.now
      && (front != [] ==> front[|front| - 1].now <= call.now)
      && match call
         case Ask(_, batch, n) => 0 < batch <= last && n <= scope.largest && Serial(scope, window, front, batch - 1)
         case Peek(_) => Serial(scope, window, front, last)
         case Expire(now) =>
           && scope.expires && LastAsk(front).Some? && LastAsk(front).value + window <= now
           && Serial(scope, window, front, last)
  }

  // The entries are some of the log, missing nothing younger than the last cutoff.
  ghost predicate Caches(entries: ZSet, log: ZSet, cutoff: int) {
    && (forall m | m in entries :: m in log && entries[m] == log[m])
    && (forall m | m in log :: 0 <= log[m] && (cutoff < log[m] ==> m in entries))
  }

  lemma TrimIsYoung(entries: ZSet, log: ZSet, cutoff: int, cutoff': int)
    requires Caches(entries, log, cutoff) && cutoff <= cutoff'
    ensures Caches(Trim(entries, cutoff'), log, cutoff')
    ensures |Trim(entries, cutoff')| == |Young(log, cutoff')|
  {
    assert Trim(entries, cutoff').Keys == Young(log, cutoff');
    assert |Trim(entries, cutoff').Keys| == |Trim(entries, cutoff')|;
  }

  lemma AppendCaches(entries: ZSet, log: ZSet, cutoff: int, added: ZSet)
    requires Caches(entries, log, cutoff) && forall m | m in added :: 0 <= added[m]
    ensures Caches(Add(entries, added), log + added, cutoff)
  {
  }

  // Same answer; and what the set and the log become.
  lemma AskAnswer(limit: int, window: int, entries: ZSet, log: ZSet, now: int, batch: nat, n: nat)
    requires |Trimmed(EXACT, window, entries, now)| == |Young(log, now - window)|
    ensures var call, allowed := Ask(now, batch, n), |Young(log, now - window)| + n <= limit;
      && Serve(limit, window, entries, call).1 == Judge(limit, window, log, call).1
      && Serve(limit, window, entries, call).0
         == (if allowed then Attempted(EXACT, window, entries, now, batch, n)
             else RolledBack(EXACT, window, entries, now, batch, n))
      && Judge(limit, window, log, call).0 == (if allowed then log + Batch(EXACT, now, batch, n) else log)
  {
    hide Trimmed, Attempted, RolledBack, Young, Batch;
  }

  // What either says, read off its count.
  lemma AnswerOf(limit: int, window: int, entries: ZSet, log: ZSet, now: int, batch: nat, n: nat)
    ensures Serve(limit, window, entries, Ask(now, batch, n)).1
         == Decided(Decide(limit, window, |Trimmed(EXACT, window, entries, now)|, n))
    ensures Judge(limit, window, log, Ask(now, batch, n)).1 == Decided(Decide(limit, window, |Young(log, now - window)|, n))
    ensures Serve(limit, window, entries, Peek(now))
         == (Trimmed(EXACT, window, entries, now), Counted(|Trimmed(EXACT, window, entries, now)|))
    ensures Judge(limit, window, log, Peek(now)) == (log, Counted(|Young(log, now - window)|))
    ensures Serve(limit, window, entries, Expire(now)) == (map[], NoAnswer)
    ensures Judge(limit, window, log, Expire(now)) == (log, NoAnswer)
  {
    hide Trimmed, Attempted, RolledBack, Young, Batch;
  }

  lemma AttemptCaches(window: int, entries: ZSet, log: ZSet, now: int, batch: nat, n: nat)
    requires Caches(Trimmed(EXACT, window, entries, now), log, now - window) && 0 <= now
    ensures Caches(Attempted(EXACT, window, entries, now, batch, n), log + Batch(EXACT, now, batch, n), now - window)
  {
    AppendCaches(Trimmed(EXACT, window, entries, now), log, now - window, Batch(EXACT, now, batch, n));
  }

  lemma TrimmedIsYoung(window: int, entries: ZSet, log: ZSet, cutoff: int, now: int)
    requires Caches(entries, log, cutoff) && cutoff <= now - window
    ensures Caches(Trimmed(EXACT, window, entries, now), log, now - window)
    ensures |Trimmed(EXACT, window, entries, now)| == |Young(log, now - window)|
  {
    TrimIsYoung(entries, log, cutoff, now - window);
  }

  // The rollback of a batch that is above all earlier ones leaves the trimmed set.
  lemma RollbackOfNewer(window: int, entries: ZSet, last: nat, now: int, batch: nat, n: nat)
    requires NamedBy(entries.Keys, last) && last < batch
    ensures RolledBack(EXACT, window, entries, now, batch, n) == Trimmed(EXACT, window, entries, now)
  {
    RollbackRestores(EXACT, window, entries, batch - 1, now, n);
  }

  lemma AskMatches(limit: int, window: int, entries: ZSet, log: ZSet, cutoff: int, last: nat, now: int, batch: nat, n: nat)
    requires Caches(entries, log, cutoff) && cutoff <= now - window && 0 <= now
    requires NamedBy(entries.Keys, last) && last < batch
    ensures var call := Ask(now, batch, n);
      && Serve(limit, window, entries, call).1 == Judge(limit, window, log, call).1
      && Caches(Serve(limit, window, entries, call).0, Judge(limit, window, log, call).0, now - window)
  {
    hide *;
    TrimmedIsYoung(window, entries, log, cutoff, now);
    AskAnswer(limit, window, entries, log, now, batch, n);
    AttemptCaches(window, entries, log, now, batch, n);
    RollbackOfNewer(window, entries, last, now, batch, n);
  }

  lemma ServeNames(limit: int, window: int, entries: ZSet, last: nat, call: Call, last': nat)
    requires NamedBy(entries.Keys, last) && last <= last' && (call.Ask? ==> call.batch <= last')
    ensures NamedBy(Serve(limit, window, entries, call).0.Keys, last')
  {
  }

  lemma PeekMatches(limit: int, window: int, entries: ZSet, log: ZSet, cutoff: int, now: int)
    requires Caches(entries, log, cutoff) && cutoff <= now - window
    ensures Serve(limit, window, entries, Peek(now)).1 == Judge(limit, window, log, Peek(now)).1
    ensures Judge(limit, window, log, Peek(now)).0 == log
    ensures Caches(Serve(limit, window, entries, Peek(now)).0, log, now - window)
  {
    TrimIsYoung(entries, log, cutoff, now - window);
  }

  // ----- Expiry -----

  // How many scores, from its own time stamp on, a request may be ahead and still be out of the window when the
  // key expires.
  function Reach(window: int): nat {
    if window < 0 then 1 - window else 1
  }

  // No logged score is more than that ahead of the latest Ask.
  ghost predicate Near(window: int, log: ZSet, ask: Option<int>) {
    forall m | m in log :: ask.Some? && log[m] < ask.value + Reach(window)
  }

  lemma AskKeepsNear(limit: int, window: int, log: ZSet, ask: Option<int>, now: int, batch: nat, n: nat)
    requires Near(window, log, ask) && (ask.Some? ==> ask.value <= now) && (n <= Reach(window) || limit <= Reach(window))
    ensures Near(window, Judge(limit, window, log, Ask(now, batch, n)).0, Some(now))
  {
    hide Reach;
    var log' := Judge(limit, window, log, Ask(now, batch, n)).0;
    forall m | m in log'
      ensures log'[m] < now + Reach(window)
    {
      if m in Batch(EXACT, now, batch, n) && log' != log {
        assert m in Names(now, batch, n);
        assert log'[m] == now + m.index;
      }
    }
  }

  lemma ExpireMatches(limit: int, window: int, log: ZSet, ask: int, entries: ZSet, cutoff: int, now: int)
    requires Near(window, log, Some(ask)) && ask <= now && ask + window <= now
    requires Caches(entries, log, cutoff)
    ensures Serve(limit, window, entries, Expire(now)) == (map[], NoAnswer)
    ensures Judge(limit, window, log, Expire(now)) == (log, NoAnswer)
    ensures Caches(map[], log, now - window)
  {
  }

  lemma {:induction false} LastAskIsPast(scope: Scope, window: int, calls: seq<Call>, last: nat)
    requires Serial(scope, window, calls, last) && LastAsk(calls).Some?
    ensures calls != [] && LastAsk(calls).value <= calls[|calls| - 1].now
  {
    var front, call := calls[..|calls| - 1], calls[|calls| - 1];
    if !call.Ask? {
      LastAskIsPast(scope, window, front, last);
    }
  }

  // ----- When the two agree -----

  // No batch gets so far ahead of its time stamp that expiry could forget it too early.
  predicate ExpirySafe(limit: int, window: int, scope: Scope) {
    !scope.expires || scope.largest <= Reach(window) || limit <= Reach(window)
  }

  // What the set and the log have in common after the calls.
  ghost predicate Matches(limit: int, window: int, scope: Scope, calls: seq<Call>, last: nat, cutoff: int) {
    var (entries, answers) := ServeAll(limit, window, calls);
    var (log, answers') := JudgeAll(limit, window, calls);
    && answers == answers'
    && Caches(entries, log, cutoff)
    && NamedBy(entries.Keys, last)
    && (scope.expires ==> Near(window, log, LastAsk(calls)))
  }

  lemma NothingMatches(limit: int, window: int, scope: Scope, last: nat, cutoff: int)
    ensures Matches(limit, window, scope, [], last, cutoff)
  {
  }

  lemma CachesLonger(entries: ZSet, log: ZSet, cutoff: int, cutoff': int)
    requires Caches(entries, log, cutoff) && cutoff <= cutoff'
    ensures Caches(entries, log, cutoff')
  {
  }

  lemma AllAnswered(limit: int, window: int, calls: seq<Call>)
    requires calls != []
    ensures var front, call := calls[..|calls| - 1], calls[|calls| - 1];
      && ServeAll(limit, window, calls)
         == (Serve(limit, window, ServeAll(limit, window, front).0, call).0,
             ServeAll(limit, window, front).1 + [Serve(limit, window, ServeAll(limit, window, front).0, call).1])
      && JudgeAll(limit, window, calls)
         == (Judge(limit, window, JudgeAll(limit, window, front).0, call).0,
             JudgeAll(limit, window, front).1 + [Judge(limit, window, JudgeAll(limit, window, front).0, call).1])
  {
    hide Serve, Judge;
  }

  lemma AskKeepsMatch(limit: int, window: int, scope: Scope, calls: seq<Call>, last: nat, cutoff: int)
    requires calls != [] && Serial(scope, window, calls, last) && calls[|calls| - 1].Ask?
    requires 0 <= scope.earliest && ExpirySafe(limit, window, scope) && calls[|calls| - 1].now - window <= cutoff
    requires Matches(limit, window, scope, calls[..|calls| - 1], calls[|calls| - 1].batch - 1, calls[|calls| - 1].now - window)
    ensures Matches(limit, window, scope, calls, last, cutoff)
  {
    hide ServeAll, JudgeAll, Serve, Judge, Caches, NamedBy, Near, Reach;
    var front, call := calls[..|calls| - 1], calls[|calls| - 1];
    var entries, log := ServeAll(limit, window, front).0, JudgeAll(limit, window, front).0;
    AllAnswered(limit, window, calls);
    AskMatches(limit, window, entries, log, call.now - window, call.batch - 1, call.now, call.batch, call.n);
    ServeNames(limit, window, entries, call.batch - 1, call, last);
    CachesLonger(ServeAll(limit, window, calls).0, JudgeAll(limit, window, calls).0, call.now - window, cutoff);
    if scope.expires {
      if LastAsk(front).Some? {
        LastAskIsPast(scope, window, front, call.batch - 1);
      }
      AskKeepsNear(limit, window, log, LastAsk(front), call.now, call.batch, call.n);
    }
  }

  lemma OtherKeepsMatch(limit: int, window: int, scope: Scope, calls: seq<Call>, last: nat, cutoff: int)
    requires calls != [] && Serial(scope, window, calls, last) && !calls[|calls| - 1].Ask?
    requires calls[|calls| - 1].now - window <= cutoff
    requires Matches(limit, window, scope, calls[..|calls| - 1], last, calls[|calls| - 1].now - window)
    ensures Matches(limit, window, scope, calls, last, cutoff)
  {
    hide ServeAll, JudgeAll, Serve, Judge, Caches, NamedBy, Near, Reach;
    var front, call := calls[..|calls| - 1], calls[|calls| - 1];
    var entries, log := ServeAll(limit, window, front).0, JudgeAll(limit, window, front).0;
    AllAnswered(limit, window, calls);
    if call.Peek? {
      PeekMatches(limit, window, entries, log, call.now - window, call.now);
    } else {
      LastAskIsPast(scope, window, front, last);
      ExpireMatches(limit, window, log, LastAsk(front).value, entries, call.now - window, call.now);
    }
    ServeNames(limit, window, entries, last, call, last);
    CachesLonger(ServeAll(limit, window, calls).0, JudgeAll(limit, window, calls).0, call.now - window, cutoff);
  }

  lemma {:induction false} AllMatch(limit: int, window: int, scope: Scope, calls: seq<Call>, last: nat, cutoff: int)
    requires Serial(scope, window, calls, last) && 0 <= scope.earliest && ExpirySafe(limit, window, scope)
    requires calls != [] ==> calls[|calls| - 1].now - window <= cutoff
    ensures Matches(limit, window, scope, calls, last, cutoff)
  {
    hide Matches, ExpirySafe;
    if calls == [] {
      NothingMatches(limit, window, scope, last, cutoff);
    } else {
      var front, call := calls[..|calls| - 1], calls[|calls| - 1];
      if call.Ask? {
        AllMatch(limit, window, scope, front, call.batch - 1, call.now - window);
        AskKeepsMatch(limit, window, scope, calls, last, cutoff);
      } else {
        AllMatch(limit, window, scope, front, last, call.now - window);
        OtherKeepsMatch(limit, window, scope, calls, last, cutoff);
      }
    }
  }

  lemma NothingThere(window: int, now: int, batch: nat, n: nat)
    ensures Trimmed(EXACT, window, map[], now) == map[] && |Young(map[], now - window)| == 0
    ensures Attempted(EXACT, window, map[], now, batch, n) == Batch(EXACT, now, batch, n)
    ensures map[] + Batch(EXACT, now, batch, n) == Batch(EXACT, now, batch, n)
  {
    hide Batch;
    assert Trimmed(EXACT, window, map[], now) == map[] && Young(map[], now - window) == {};
  }

  // A limiter that can admit nothing keeps nothing.
  lemma EmptyServes(limit: int, window: int, call: Call)
    requires call.Ask? ==> call.batch > 0 && (limit <= 0 || call.n == 0)
    ensures Serve(limit, window, map[], call).0 == map[] && Judge(limit, window, map[], call).0 == map[]
    ensures Serve(limit, window, map[], call).1 == Judge(limit, window, map[], call).1
  {
    hide *;
    match call {
      case Ask(now, batch, n) =>
        NothingThere(window, now, batch, n);
        AskAnswer(limit, window, map[], map[], now, batch, n);
        EmptyIsNamed(map[]);
        RollbackOfNewer(window, map[], 0, now, batch, n);
        EmptyBatch(now, batch, n);
      case Peek(now) =>
        NothingThere(window, now, 0, 0);
        AnswerOf(limit, window, map[], map[], now, 0, 0);
      case Expire(now) =>
        AnswerOf(limit, window, map[], map[], now, 0, 0);
    }
  }

  lemma EmptyIsNamed(entries: ZSet)
    requires entries == map[]
    ensures NamedBy(entries.Keys, 0)
  {
  }

  lemma EmptyBatch(now: int, batch: nat, n: nat)
    ensures n == 0 ==> Batch(EXACT, now, batch, n) == map[]
  {
  }

  lemma {:induction false} NothingAdmitted(limit: int, window: int, scope: Scope, calls: seq<Call>, last: nat)
    requires Serial(scope, window, calls, last) && (limit <= 0 || scope.largest == 0)
    ensures ServeAll(limit, window, calls).0 == map[] && JudgeAll(limit, window, calls).0 == map[]
    ensures ServeAll(limit, window, calls).1 == JudgeAll(limit, window, calls).1
  {
    hide Serve, Judge;
    if calls == [] {
    } else {
      var front, call := calls[..|calls| - 1], calls[|calls| - 1];
      NothingAdmitted(limit, window, scope, front, if call.Ask? then call.batch - 1 else last);
      EmptyServes(limit, window, call);
    }
  }

  // What a caller can check beforehand: nothing can be admitted, or the clock reads 1970 or later and expiry is safe.
  predicate Refines(limit: int, window: int, scope: Scope) {
    limit <= 0 || scope.largest == 0 || (0 <= scope.earliest && ExpirySafe(limit, window, scope))
  }

  /** Refinement: over any serial history, with any gaps in its batch numbers, every decision, Remaining and count the
      limiter returns is the one the untrimmed log gives, so a denial costs no quota and trimming and expiry never
      change an answer. */
  lemma {:induction false} LimiterRefinesLog(limit: int, window: int, scope: Scope, calls: seq<Call>, last: nat)
    requires Serial(scope, window, calls, last) && Refines(limit, window, scope)
    ensures ServeAll(limit, window, calls).1 == JudgeAll(limit, window, calls).1
  {
    hide ServeAll, JudgeAll, ExpirySafe;
    if limit <= 0 || scope.largest == 0 {
      NothingAdmitted(limit, window, scope, calls, last);
    } else {
      AllMatch(limit, window, scope, calls, last, if calls == [] then 0 else calls[|calls| - 1].now - window);
    }
  }

  // ----- When they do not -----

  lemma AnswersSnoc(limit: int, window: int, calls: seq<Call>, call: Call)
    ensures ServeAll(limit, window, calls + [call])
         == (Serve(limit, window, ServeAll(limit, window, calls).0, call).0,
             ServeAll(limit, window, calls).1 + [Serve(limit, window, ServeAll(limit, window, calls).0, call).1])
    ensures JudgeAll(limit, window, calls + [call])
         == (Judge(limit, window, JudgeAll(limit, window, calls).0, call).0,
             JudgeAll(limit, window, calls).1 + [Judge(limit, window, JudgeAll(limit, window, calls).0, call).1])
  {
    hide Serve, Judge;
    assert (calls + [call])[..|calls|] == calls;
  }

  lemma SerialSnoc(scope: Scope, window: int, calls: seq<Call>, call: Call, last: nat)
    requires scope.earliest <= call.now && (calls != [] ==> calls[|calls| - 1].now <= call.now)
    requires match call
      case Ask(_, batch, n) => 0 < batch <= last && n <= scope.largest && Serial(scope, window, calls, batch - 1)
      case Peek(_) => Serial(scope, window, calls, last)
      case Expire(now) =>
        && scope.expires && LastAsk(calls).Some? && LastAsk(calls).value + window <= now
        && Serial(scope, window, calls, last)
    ensures Serial(scope, window, calls + [call], last)
  {
    assert (calls + [call])[..|calls|] == calls;
  }

  // A first request of n is admitted by both.
  lemma FirstAsk(limit: int, window: int, t: int, n: nat)
    requires n <= limit
    ensures ServeAll(limit, window, [Ask(t, 1, n)]).0 == JudgeAll(limit, window, [Ask(t, 1, n)]).0 == Batch(EXACT, t, 1, n)
    ensures ServeAll(limit, window, [Ask(t, 1, n)]).1 == JudgeAll(limit, window, [Ask(t, 1, n)]).1
  {
    hide *;
    NothingServed(limit, window);
    AnswersSnoc(limit, window, [], Ask(t, 1, n));
    assert [] + [Ask(t, 1, n)] == [Ask(t, 1, n)];
    NothingThere(window, t, 1, n);
    AskAnswer(limit, window, map[], map[], t, 1, n);
  }

  lemma NothingServed(limit: int, window: int)
    ensures ServeAll(limit, window, []) == (map[], []) && JudgeAll(limit, window, []) == (map[], [])
  {
  }

  // The first moment at which an entry stamped t, or a key touched at t, is out of time.
  function Over(t: int, window: int): int {
    if window < 0 then t else t + window
  }

  lemma NegativeScoresKept(window: int, t: int, later: int)
    requires t < 0 && Over(t, window) <= later
    ensures |Trimmed(EXACT, window, Batch(EXACT, t, 1, 1), later)| == 1
    ensures Young(Batch(EXACT, t, 1, 1), later - window) == {}
  {
    var m := Member(t, 1, 0);
    assert Batch(EXACT, t, 1, 1) == map[m := t];
    assert Trimmed(EXACT, window, map[m := t], later) == map[m := t];
  }

  /** Before 1970 scores are negative and the trim, which starts at score 0, never takes them out: for every limit and
      window, a run that admits one request before 1970 counts it, and denies a full batch, for ever. */
  lemma NegativeScoresStay(limit: int, window: int, t: int, later: int)
    requires limit >= 1 && t < 0 && Over(t, window) <= later
    ensures var asked := [Ask(t, 1, 1)];
      && ServeAll(limit, window, asked + [Peek(later)]).1[1] == Counted(1)
      && JudgeAll(limit, window, asked + [Peek(later)]).1[1] == Counted(0)
      && ServeAll(limit, window, asked + [Ask(later, 2, limit)]).1[1] == Decided(Decision(false, 0, window, limit))
      && JudgeAll(limit, window, asked + [Ask(later, 2, limit)]).1[1] == Decided(Decision(true, 0, window, limit))
  {
    hide Serve, Judge, ServeAll, JudgeAll, Trimmed, Batch, Young;
    FirstAsk(limit, window, t, 1);
    NegativeScoresKept(window, t, later);
    AnswerOf(limit, window, Batch(EXACT, t, 1, 1), Batch(EXACT, t, 1, 1), later, 2, limit);
    AnswersSnoc(limit, window, [Ask(t, 1, 1)], Peek(later));
    AnswersSnoc(limit, window, [Ask(t, 1, 1)], Ask(later, 2, limit));
  }

  lemma AheadIsYoung(window: int, t: int, n: nat)
    requires n > Reach(window)
    ensures |Young(Batch(EXACT, t, 1, n), Over(t, window) - window)| >= 1
    ensures Trimmed(EXACT, window, map[], Over(t, window)) == map[]
  {
    var m := Member(t, 1, n - 1);
    assert m in Names(t, 1, n);
    assert m in Young(Batch(EXACT, t, 1, n), Over(t, window) - window);
  }

  /** Expiry counts from a batch's time stamp, but the scores in it run ahead of that: for every limit and window that
      admit a batch longer than Reach, a run in which the key expires on time forgets a request the log still counts,
      and admits a full batch beside it. */
  lemma ExpiryForgets(limit: int, window: int, t: int, n: nat)
    requires Reach(window) < n <= limit
    ensures var now := Over(t, window);
            var gone := [Ask(t, 1, n), Expire(now)];
      && ServeAll(limit, window, gone + [Peek(now)]).1[2] == Counted(0)
      && JudgeAll(limit, window, gone + [Peek(now)]).1[2] != Counted(0)
      && ServeAll(limit, window, gone + [Ask(now, 2, limit)]).1[2] == Decided(Decision(true, 0, window, limit))
      && JudgeAll(limit, window, gone + [Ask(now, 2, limit)]).1[2] == Decided(Decision(false, 0, window, limit))
  {
    hide Serve, Judge, ServeAll, JudgeAll, Trimmed, Batch, Young, Over, Reach;
    var now := Over(t, window);
    var gone := [Ask(t, 1, n), Expire(now)];
    AfterExpiry(limit, window, t, n, now);
    AheadIsYoung(window, t, n);
    AnswerOf(limit, window, map[], Batch(EXACT, t, 1, n), now, 2, limit);
    AnswersSnoc(limit, window, gone, Peek(now));
    AnswersSnoc(limit, window, gone, Ask(now, 2, limit));
  }

  lemma AfterExpiry(limit: int, window: int, t: int, n: nat, now: int)
    requires n <= limit
    ensures var gone := [Ask(t, 1, n), Expire(now)];
      ServeAll(limit, window, gone).0 == map[] && JudgeAll(limit, window, gone).0 == Batch(EXACT, t, 1, n)
  {
    hide *;
    FirstAsk(limit, window, t, n);
    AnswersSnoc(limit, window, [Ask(t, 1, n)], Expire(now));
    AnswerOf(limit, window, Batch(EXACT, t, 1, n), Batch(EXACT, t, 1, n), now, 0, 0);
    assert [Ask(t, 1, n)] + [Expire(now)] == [Ask(t, 1, n), Expire(now)];
  }

  // ----- The exact condition -----

  ghost predicate AllAgree(limit: int, window: int, scope: Scope) {
    forall calls: seq<Call>, last: nat | Serial(scope, window, calls, last) ::
      ServeAll(limit, window, calls).1 == JudgeAll(limit, window, calls).1
  }

  lemma EarlyHistory(limit: int, window: int, scope: Scope) returns (calls: seq<Call>, last: nat)
    requires limit >= 1 && scope.largest >= 1 && scope.earliest < 0
    ensures Serial(scope, window, calls, last)
    ensures ServeAll(limit, window, calls).1 != JudgeAll(limit, window, calls).1
  {
    hide ServeAll, JudgeAll;
    var t := scope.earliest;
    last, calls := 1, [Ask(t, 1, 1)] + [Peek(Over(t, window))];
    NegativeScoresStay(limit, window, t, Over(t, window));
    SerialSnoc(scope, window, [], Ask(t, 1, 1), 1);
    assert [] + [Ask(t, 1, 1)] == [Ask(t, 1, 1)];
    SerialSnoc(scope, window, [Ask(t, 1, 1)], Peek(Over(t, window)), 1);
  }

  lemma ExpiringHistory(limit: int, window: int, scope: Scope) returns (calls: seq<Call>, last: nat)
    requires scope.expires && scope.largest > Reach(window) && limit > Reach(window)
    ensures Serial(scope, window, calls, last)
    ensures ServeAll(limit, window, calls).1 != JudgeAll(limit, window, calls).1
  {
    hide ServeAll, JudgeAll;
    var t, n := scope.earliest, Reach(window) + 1;
    var ask, gone, peek := Ask(t, 1, n), Expire(Over(t, window)), Peek(Over(t, window));
    last, calls := 1, [ask, gone] + [peek];
    ExpiryForgets(limit, window, t, n);
    SerialSnoc(scope, window, [], ask, 1);
    assert [] + [ask] == [ask] && [ask] + [gone] == [ask, gone];
    SerialSnoc(scope, window, [ask], gone, 1);
    SerialSnoc(scope, window, [ask, gone], peek, 1);
  }

  /** Exactly when all serial histories of a family agree with the log: nothing can be admitted, or no stamp is before
      1970 and, if keys expire, no admitted batch is longer than Reach (1 for every window that is not negative). */
  lemma LimiterRefinesLogIff(limit: int, window: int, scope: Scope)
    ensures AllAgree(limit, window, scope) <==> Refines(limit, window, scope)
  {
    hide ServeAll, JudgeAll, Serial, Reach;
    if Refines(limit, window, scope) {
      forall calls: seq<Call>, last: nat | Serial(scope, window, calls, last)
        ensures ServeAll(limit, window, calls).1 == JudgeAll(limit, window, calls).1
      {
        LimiterRefinesLog(limit, window, scope, calls, last);
      }
    } else if scope.earliest < 0 {
      var calls, last := EarlyHistory(limit, window, scope);
    } else {
      var calls, last := ExpiringHistory(limit, window, scope);
    }
  }
}
