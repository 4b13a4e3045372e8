/**
 The retrying unary client call: which methods may be retried, which status codes are retried or
 blamed on the target, and the bounded attempt loop. The invoker, the timers and the caller's
 context are oracles giving the outcome of each attempt and of each wait.
 */
module GrpcRetry {
  import opened Backoff
  import opened Collections
  import opened Machine

  datatype Code =
    | OK | Canceled | Unknown | InvalidArgument | DeadlineExceeded | NotFound | AlreadyExists
    | PermissionDenied | ResourceExhausted | FailedPrecondition | Aborted | OutOfRange | Unimplemented
    | Internal | Unavailable | DataLoss | Unauthenticated

  datatype Outcome = Success | Failure(code: Code)

  // A wait runs out, or the call's context ends first.
  datatype Wait = Elapsed | Interrupted(code: Code)

  datatype ClientConfig = ClientConfig(
    maxRetries: int, retryWaitTime: int, retryMaxWaitTime: int,
    retryAllMethods: bool, retryableMethods: seq<string>)

  predicate Retryable(code: Code) {
    code == Unavailable
  }

  // The codes that say the target itself is unhealthy.
  predicate BlamesTarget(o: Outcome) {
    o.Failure? && o.code in {Unavailable, DeadlineExceeded, Internal, Unknown, DataLoss}
  }

  // An entry names one method, or every method below a service.
  ghost predicate Matches(configured: string, name: string) {
    || configured == name
    || exists service: string :: configured == service + "/*" && service + "/" <= name
  }

  ghost predicate AllowsRetry(cfg: ClientConfig, name: string) {
    cfg.retryAllMethods || exists i | 0 <= i < |cfg.retryableMethods| :: Matches(cfg.retryableMethods[i], name)
  }

  lemma MatchesWildcard(configured: string, name: string)
    requires HasSuffix(configured, "/*")
    ensures configured[..|configured| - 2] + "/" <= name ==> Matches(configured, name)
    ensures Matches(configured, name) ==>
              configured == name || configured[..|configured| - 2] + "/" <= name
  {
    var stem := configured[..|configured| - 2];
    assert configured == stem + "/*";
    if Matches(configured, name) && configured != name {
      var service: string :| configured == service + "/*" && service + "/" <= name;
      assert service == (service + "/*")[..|service|] == stem;
    }
  }

  lemma WildcardsEndSo(configured: string, name: string)
    ensures Matches(configured, name) && configured != name ==> HasSuffix(configured, "/*")
  {
    if Matches(configured, name) && configured != name {
      var service: string :| configured == service + "/*" && service + "/" <= name;
      assert configured[|service|..] == "/*";
    }
  }

  method MethodAllowsRetry(cfg: ClientConfig, name: string) returns (allowed: bool)
    ensures allowed == AllowsRetry(cfg, name)
  {
    if cfg.retryAllMethods {
      return true;
    }
    for i := 0 to |cfg.retryableMethods|
      invariant forall j | 0 <= j < i :: !Matches(cfg.retryableMethods[j], name)
    {
      var configured := cfg.retryableMethods[i];
      if configured == name {
        assert Matches(configured, name);
        return true;
      }
      if HasSuffix(configured, "/*") {
        MatchesWildcard(configured, name);
        if configured[..|configured| - 2] + "/" <= name {
          return true;
        }
      } else {
        WildcardsEndSo(configured, name);
      }
    }
    return false;
  }

  // How many retries a call of this method may make.
  ghost function Budget(cfg: ClientConfig, name: string): nat {
    if cfg.maxRetries < 0 || !AllowsRetry(cfg, name) then 0 else cfg.maxRetries
  }

  /** What a finished call went through: attempts made, waits begun, and the outcome handed to the caller.
      Every attempt but the last met Unavailable and its wait ran out; the call ended on an outcome that is
      not retried, on the last permitted attempt, or when its context ended in a wait. */
  predicate Retried(budget: nat, outcomes: seq<Outcome>, waits: seq<Wait>, r: Outcome) {
    && 1 <= |outcomes| <= budget + 1
    && Unfinished(outcomes[..|outcomes| - 1], waits)
    && var last := outcomes[|outcomes| - 1];
       if |waits| < |outcomes|
       then r == last && (last == Failure(Unavailable) ==> |outcomes| == budget + 1)
       else
         && |waits| == |outcomes| <= budget && last == Failure(Unavailable)
         && waits[|waits| - 1].Interrupted? && r == Failure(waits[|waits| - 1].code)
  }

  // Attempts after which the loop goes on.
  predicate Unfinished(outcomes: seq<Outcome>, waits: seq<Wait>) {
    && |outcomes| <= |waits|
    && forall i | 0 <= i < |outcomes| :: outcomes[i] == Failure(Unavailable) && waits[i] == Elapsed
  }

  lemma NothingYet(cfg: ClientConfig, invoker: nat -> Outcome, waiter: nat -> Wait)
    ensures Unfinished([], []) && Follows([], invoker) && Follows([], waiter) && DelaysFit(cfg, [])
  {
  }

  // xs is what an oracle answered, question by question.
  predicate Follows<T(==)>(xs: seq<T>, oracle: nat -> T) {
    forall i | 0 <= i < |xs| :: xs[i] == oracle(i)
  }

  lemma FollowsSnoc<T>(xs: seq<T>, oracle: nat -> T)
    requires Follows(xs, oracle)
    ensures Follows(xs + [oracle(|xs|)], oracle)
  {
  }

  predicate DelaysFit(cfg: ClientConfig, delays: seq<int>) {
    forall i | 0 <= i < |delays| :: WaitFits(cfg, i, delays[i])
  }

  lemma DelaysFitSnoc(cfg: ClientConfig, delays: seq<int>, delay: int)
    requires DelaysFit(cfg, delays)
    requires cfg.retryWaitTime <= 0 ==> delay == 0
    requires cfg.retryWaitTime > 0 ==>
      var maximum := if cfg.retryMaxWaitTime <= 0 then 2 * SECOND else cfg.retryMaxWaitTime;
      var ceiling := Ideal(cfg.retryWaitTime, maximum, |delays|);
      ceiling / 2 <= delay <= ceiling
    ensures DelaysFit(cfg, delays + [delay])
  {
    hide Ideal;
  }

  lemma StopsOn(budget: nat, outcomes: seq<Outcome>, waits: seq<Wait>, o: Outcome)
    requires |outcomes| == |waits| <= budget && Unfinished(outcomes, waits)
    requires o != Failure(Unavailable) || |outcomes| == budget
    ensures Retried(budget, outcomes + [o], waits, o)
  {
    assert (outcomes + [o])[..|outcomes|] == outcomes;
  }

  lemma StopsWaiting(budget: nat, outcomes: seq<Outcome>, waits: seq<Wait>, code: Code)
    requires |outcomes| == |waits| < budget && Unfinished(outcomes, waits)
    ensures Retried(budget, outcomes + [Failure(Unavailable)], waits + [Interrupted(code)], Failure(code))
  {
    assert (outcomes + [Failure(Unavailable)])[..|outcomes|] == outcomes;
  }

  lemma GoesOn(outcomes: seq<Outcome>, waits: seq<Wait>)
    requires |outcomes| == |waits| && Unfinished(outcomes, waits)
    ensures Unfinished(outcomes + [Failure(Unavailable)], waits + [Elapsed])
  {
  }

  /** The loop. Its trace is fixed by the oracles (see RetriedIsUnique), and the k-th wait is the bounded delay
      of attempt k. */
  method Retry(cfg: ClientConfig, name: string, invoker: nat -> Outcome, waiter: nat -> Wait,
               random: int -> int, randomFails: bool)
    returns (r: Outcome, outcomes: seq<Outcome>, waits: seq<Wait>, delays: seq<int>)
    requires cfg.retryWaitTime < TWO_63 && cfg.retryMaxWaitTime < TWO_63
    requires forall bound | bound > 0 :: 0 <= random(bound) < bound
    ensures Retried(Budget(cfg, name), outcomes, waits, r)
    ensures Follows(outcomes, invoker) && Follows(waits, waiter)
    ensures |delays| == |waits| && DelaysFit(cfg, delays)
  {
    hide Retried, Unfinished, DelaysFit, Follows, AllowsRetry, Ideal;
    var maxRetries := cfg.maxRetries;
    var allowed := MethodAllowsRetry(cfg, name);
    if maxRetries < 0 || !allowed {
      maxRetries := 0;
    }
    outcomes, waits, delays := [], [], [];
    NothingYet(cfg, invoker, waiter);
    var lastErr := Success;
    var i := 0;
    while i <= maxRetries
      invariant 0 <= i == |outcomes| <= maxRetries + 1
      invariant |waits| == |delays| == if i <= maxRetries then i else maxRetries
      invariant i <= maxRetries ==> Unfinished(outcomes, waits)
      invariant i > maxRetries ==> Retried(maxRetries, outcomes, waits, lastErr)
      invariant Follows(outcomes, invoker) && Follows(waits, waiter) && DelaysFit(cfg, delays)
    {
      var o := invoker(i);
      FollowsSnoc(outcomes, invoker);
      if o == Success {
        StopsOn(maxRetries, outcomes, waits, o);
        return Success, outcomes + [o], waits, delays;
      }
      lastErr := o;
      if !Retryable(o.code) {
        StopsOn(maxRetries, outcomes, waits, o);
        return o, outcomes + [o], waits, delays;
      }
      if i < maxRetries {
        var delay := BoundedRetryDelay(cfg.retryWaitTime, cfg.retryMaxWaitTime, i + 1, random, randomFails);
        DelaysFitSnoc(cfg, delays, delay);
        delays := delays + [delay];
        var w := waiter(i);
        FollowsSnoc(waits, waiter);
        if w.Interrupted? {
          StopsWaiting(maxRetries, outcomes, waits, w.code);
          return Failure(w.code), outcomes + [o], waits + [w], delays;
        }
        GoesOn(outcomes, waits);
        waits := waits + [w];
      } else {
        StopsOn(maxRetries, outcomes, waits, o);
      }
      outcomes := outcomes + [o];
      i := i + 1;
    }
    return lastErr, outcomes, waits, delays;
  }

  // The delay before retry number i + 1: nothing without a base, else at least half of and at most the
  // capped doubling.
  predicate WaitFits(cfg: ClientConfig, i: nat, delay: int) {
    if cfg.retryWaitTime <= 0 then delay == 0
    else
      var ceiling := Ideal(cfg.retryWaitTime, if cfg.retryMaxWaitTime <= 0 then 2 * SECOND else cfg.retryMaxWaitTime, i);
      ceiling / 2 <= delay <= ceiling
  }

  lemma EarlierWereUnavailable(budget: nat, a: seq<Outcome>, w: seq<Wait>, r: Outcome, i: nat)
    requires Retried(budget, a, w, r) && i < |a| - 1
    ensures i < |w| && a[i] == Failure(Unavailable) && w[i] == Elapsed
  {
    assert a[..|a| - 1][i] == a[i];
  }

  lemma LastOne(budget: nat, a: seq<Outcome>, w: seq<Wait>, r: Outcome)
    requires Retried(budget, a, w, r)
    ensures 1 <= |a| <= budget + 1
    ensures a[|a| - 1] == Failure(Unavailable) && |a| <= budget ==> |w| == |a| && w[|a| - 1] != Elapsed
  {
  }

  /** The oracles leave the loop no choice. */
  lemma RetriedIsUnique(budget: nat, a: seq<Outcome>, w: seq<Wait>, r: Outcome, a': seq<Outcome>, w': seq<Wait>, r': Outcome)
    requires Retried(budget, a, w, r) && Retried(budget, a', w', r')
    requires forall i | 0 <= i < |a| && i < |a'| :: a[i] == a'[i]
    requires forall i | 0 <= i < |w| && i < |w'| :: w[i] == w'[i]
    ensures a == a' && w == w' && r == r'
  {
  }
}
