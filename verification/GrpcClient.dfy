/**
 One call through the client chain, as one goroutine sees it: the breaker registry and the
 breaker-over-retry composition. Interleaving of many calls is the subject of GrpcRuns.
 */
module GrpcClient {
  import opened Breaker
  import opened GrpcRetry
  import opened Machine

  class BreakerRegistry {
    var breakers: map<string, CircuitBreaker>

    constructor ()
      ensures breakers == map[]
    {
      breakers := map[];
    }

    /** Looks under the read lock and, on a miss, looks again and creates under the write lock. The registry never
        loses or replaces an entry. */
    method GetOrCreate(target: string) returns (cb: CircuitBreaker)
      modifies this
      ensures breakers == old(breakers)[target := cb]
      ensures target in old(breakers) ==> cb == old(breakers)[target]
      ensures target !in old(breakers) ==>
        fresh(cb) && cb.Contents() == FRESH && cb.config == Config(5, 30 * SECOND, 3)
    {
      if target in breakers {
        cb := breakers[target];
        assert breakers == breakers[target := cb];
        return;
      }
      cb := new CircuitBreaker(Config(5, 30 * SECOND, 0));
      breakers := breakers[target := cb];
    }

    // ResetCircuitBreaker: closes the target's breaker, if there is one.
    method ResetBreaker(target: string)
      modifies if target in breakers then {breakers[target]} else {}
      ensures target in breakers ==> breakers[target].Contents() == ToClosed(old(breakers[target].Contents()))
    {
      if target in breakers {
        breakers[target].Reset();
      }
    }
  }

  datatype CallResult = Rejected | Called(outcome: Outcome)

  /** A call through breaker and retry loop. A rejected call makes no attempt and leaves the breaker as it was; an
      admitted one goes through the attempts of one retry loop and tells the breaker once, at its end. */
  method Execute(cb: CircuitBreaker, cfg: ClientConfig, name: string, before: int, after: int,
                 invoker: nat -> Outcome, waiter: nat -> Wait, random: int -> int, randomFails: bool)
    returns (r: CallResult, outcomes: seq<Outcome>, waits: seq<Wait>)
    requires cfg.retryWaitTime < TWO_63 && cfg.retryMaxWaitTime < TWO_63
    requires forall bound | bound > 0 :: 0 <= random(bound) < bound
    modifies cb
    ensures r.Called? <==> Admits(cb.config, old(cb.Contents()), before)
    ensures r.Rejected? ==> outcomes == [] && waits == [] && cb.Contents() == old(cb.Contents())
    ensures r.Called? ==>
      && Retried(Budget(cfg, name), outcomes, waits, r.outcome)
      && Follows(outcomes, invoker) && Follows(waits, waiter)
      && cb.Contents() ==
           After(cb.config, Before(cb.config, old(cb.Contents()), before), after, BlamesTarget(r.outcome))
  {
    var admitted := cb.BeforeRequest(before);
    if !admitted {
      return Rejected, [], [];
    }
    var o, os, ws, _ := Retry(cfg, name, invoker, waiter, random, randomFails);
    cb.AfterRequest(after, BlamesTarget(o));
    return Called(o), os, ws;
  }
}
