/** The limiter object itself, call after call, against the plain log of admissions. */
module RateLimitReplay {
  import opened RateLimitLog
  import opened RateLimiter
  import opened SortedSet

  // What happens around one key. Elsewhere is a call on another key of the process, which takes a batch number too.
  datatype Request = Allow(now: int, n: nat) | Count(now: int) | Elsewhere(now: int, n: nat) | Gone(now: int)

  // The calls on this key, with the batch numbers they get when the counter stands at last.
  function Numbered(requests: seq<Request>, last: nat): seq<Call> {
    if requests == [] then []
    else
      var front, r := Numbered(requests[..|requests| - 1], last), requests[|requests| - 1];
      match r
      case Allow(now, n) => front + [Ask(now, last + Taken(requests), n)]
      case Count(now) => front + [Peek(now)]
      case Elsewhere(_, _) => front
      case Gone(now) => front + [Expire(now)]
  }

  // How many batch numbers the requests take.
  function Taken(requests: seq<Request>): (k: nat)
    ensures k <= |requests|
  {
    if requests == [] then 0
    else
      var r := requests[|requests| - 1];
      Taken(requests[..|requests| - 1]) + if r.Allow? || r.Elsewhere? then 1 else 0
  }

  lemma NumberedSnoc(requests: seq<Request>, r: Request, last: nat)
    ensures Taken(requests + [r]) == Taken(requests) + if r.Allow? || r.Elsewhere? then 1 else 0
    ensures Numbered(requests + [r], last) == Numbered(requests, last) +
      match r
      case Allow(now, n) => [Ask(now, last + Taken(requests) + 1, n)]
      case Count(now) => [Peek(now)]
      case Elsewhere(_, _) => []
      case Gone(now) => [Expire(now)]
  {
    assert (requests + [r])[..|requests|] == requests;
  }

  lemma ServedSnoc(limit: int, window: int, calls: seq<Call>, call: Call)
    ensures ServeAll(limit, window, calls + [call])
         == (Serve(limit, window, ServeAll(limit, window, calls).0, call).0,
             ServeAll(limit, window, calls).1 + [Serve(limit, window, ServeAll(limit, window, calls).0, call).1])
  {
    hide Serve;
    AnswersSnoc(limit, window, calls, call);
  }

  // One undisturbed AllowN is one Ask.
  method ServeAsk(l: Limiter, now: int, n: nat) returns (answer: Answer)
    requires l.round == EXACT
    modifies l, l.sequence
    ensures l.sequence.last == NextNumber(old(l.sequence.last))
    ensures (l.entries, answer) == Serve(l.limit, l.window, old(l.entries), Ask(now, l.sequence.last, n))
  {
    var decision := l.AllowN(now, n, true);
    return Decided(decision);
  }

  method ServePeek(l: Limiter, now: int) returns (answer: Answer)
    requires l.round == EXACT
    modifies l
    ensures (l.entries, answer) == Serve(l.limit, l.window, old(l.entries), Peek(now))
  {
    var count := l.GetCount(now);
    return Counted(count);
  }

  /** A new limiter, asked one request after the other with successful rollbacks while other keys share its counter,
      gives all the answers of the untrimmed log, under the condition of LimiterRefinesLogIff. */
  method Replay(l: Limiter, requests: seq<Request>, ghost scope: Scope) returns (answers: seq<Answer>)
    requires l.round == EXACT && l.entries == map[] && l.sequence.last + |requests| <= MAX_UINT64
    requires Serial(scope, l.window, Numbered(requests, l.sequence.last), l.sequence.last + Taken(requests))
    requires Refines(l.limit, l.window, scope)
    modifies l, l.sequence
    ensures answers == JudgeAll(l.limit, l.window, Numbered(requests, old(l.sequence.last))).1
  {
    hide Serve, ServeAll, JudgeAll, Serial, Refines;
    ghost var last := l.sequence.last;
    answers := [];
    NothingServed(l.limit, l.window);
    for i := 0 to |requests|
      invariant l.sequence.last == last + Taken(requests[..i])
      invariant (l.entries, answers) == ServeAll(l.limit, l.window, Numbered(requests[..i], last))
    {
      var r := requests[i];
      ghost var calls := Numbered(requests[..i], last);
      assert requests[..i + 1] == requests[..i] + [r];
      NumberedSnoc(requests[..i], r, last);
      match r {
        case Allow(now, n) =>
          var answer := ServeAsk(l, now, n);
          ServedSnoc(l.limit, l.window, calls, Ask(now, l.sequence.last, n));
          answers := answers + [answer];
        case Count(now) =>
          var answer := ServePeek(l, now);
          ServedSnoc(l.limit, l.window, calls, Peek(now));
          answers := answers + [answer];
        case Elsewhere(now, n) =>
          var _ := l.sequence.NewMembers(EXACT, now, n);
          assert calls + [] == calls;
        case Gone(now) =>
          ExpiryServed(l.limit, l.window, l.entries, now);
          ServedSnoc(l.limit, l.window, calls, Expire(now));
          l.entries := map[];
          answers := answers + [NoAnswer];
      }
    }
    assert requests[..|requests|] == requests;
    LimiterRefinesLog(l.limit, l.window, scope, Numbered(requests, last), last + Taken(requests));
  }

  lemma ExpiryServed(limit: int, window: int, entries: ZSet, now: int)
    ensures Serve(limit, window, entries, Expire(now)) == (map[], NoAnswer)
  {
  }
}
