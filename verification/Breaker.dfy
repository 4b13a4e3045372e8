/**
 The circuit breaker. `Before` and `After` are its two critical sections; the protected
 function runs between them, outside the lock.
 */
module Breaker {
  import opened Machine

  datatype Mode = Closed | Open | HalfOpen

  datatype Config = Config(maxFailures: int, timeout: int, maxHalfOpenCalls: int)

  datatype Core = Core(mode: Mode, failures: nat, successes: nat, halfOpenCalls: nat, lastFailureTime: int)

  const FRESH := Core(Closed, 0, 0, 0, 0)

  // Non-positive settings take the defaults.
  function Normalize(c: Config): (r: Config)
    ensures Sound(r)
    ensures if c.maxFailures > 0 then r.maxFailures == c.maxFailures else r.maxFailures == 5
    ensures if c.timeout > 0 then r.timeout == c.timeout else r.timeout == 30 * SECOND
    ensures if c.maxHalfOpenCalls > 0 then r.maxHalfOpenCalls == c.maxHalfOpenCalls else r.maxHalfOpenCalls == 3
  {
    Config(if c.maxFailures <= 0 then 5 else c.maxFailures,
           if c.timeout <= 0 then 30 * SECOND else c.timeout,
           if c.maxHalfOpenCalls <= 0 then 3 else c.maxHalfOpenCalls)
  }

  predicate Sound(c: Config) {
    0 < c.maxFailures && 0 < c.timeout && 0 < c.maxHalfOpenCalls
  }

  function ToClosed(k: Core): Core {
    k.(mode := Closed, failures := 0, successes := 0, halfOpenCalls := 0)
  }

  function ToOpen(k: Core, now: int): Core {
    k.(mode := Open, lastFailureTime := now)
  }

  function ToHalfOpen(k: Core): Core {
    k.(mode := HalfOpen, successes := 0, halfOpenCalls := 0)
  }

  predicate Admits(c: Config, k: Core, now: int) {
    match k.mode
    case Closed => true
    case Open => now - k.lastFailureTime > c.timeout
    case HalfOpen => k.halfOpenCalls < c.maxHalfOpenCalls
  }

  function Before(c: Config, k: Core, now: int): Core {
    if !Admits(c, k, now) then k
    else match k.mode
      case Closed => k
      case Open => ToHalfOpen(k)
      case HalfOpen => k.(halfOpenCalls := k.halfOpenCalls + 1)
  }

  function After(c: Config, k: Core, now: int, failure: bool): Core {
    match (k.mode, failure)
    case (Closed, true) =>
      var k' := k.(failures := k.failures + 1, lastFailureTime := now);
      if k'.failures >= c.maxFailures then ToOpen(k', now) else k'
    case (HalfOpen, true) => ToOpen(k, now)
    case (Closed, false) => k.(failures := 0)
    case (HalfOpen, false) =>
      var k' := k.(successes := k.successes + 1);
      if k'.successes >= c.maxHalfOpenCalls then ToClosed(k') else k'
    case (Open, _) => k
  }

  class CircuitBreaker {
    const config: Config
    var mode: Mode
    var failures: nat
    var successes: nat
    var halfOpenCalls: nat
    var lastFailureTime: int

    function Contents(): Core
      reads this
    {
      Core(mode, failures, successes, halfOpenCalls, lastFailureTime)
    }

    constructor (c: Config)
      ensures Contents() == FRESH && config == Normalize(c)
    {
      config := Normalize(c);
      mode, failures, successes, halfOpenCalls, lastFailureTime := Closed, 0, 0, 0, 0;
    }

    method BeforeRequest(now: int) returns (admitted: bool)
      modifies this
      ensures admitted == Admits(config, old(Contents()), now)
      ensures Contents() == Before(config, old(Contents()), now)
    {
      match mode
      case Closed =>
        return true;
      case Open =>
        if now - lastFailureTime > config.timeout {
          MoveToHalfOpen();
          return true;
        }
        return false;
      case HalfOpen =>
        if halfOpenCalls >= config.maxHalfOpenCalls {
          return false;
        }
        halfOpenCalls := halfOpenCalls + 1;
        return true;
    }

    method AfterRequest(now: int, failure: bool)
      modifies this
      ensures Contents() == After(config, old(Contents()), now, failure)
    {
      if failure {
        OnFailure(now);
      } else {
        OnSuccess(now);
      }
    }

    method OnSuccess(now: int)
      modifies this
      ensures Contents() == After(config, old(Contents()), now, false)
    {
      match mode
      case Closed =>
        failures := 0;
      case HalfOpen =>
        successes := successes + 1;
        if successes >= config.maxHalfOpenCalls {
          MoveToClosed();
        }
      case Open =>
    }

    method OnFailure(now: int)
      modifies this
      ensures Contents() == After(config, old(Contents()), now, true)
    {
      match mode
      case Closed =>
        failures := failures + 1;
        lastFailureTime := now;
        if failures >= config.maxFailures {
          MoveToOpen(now);
        }
      case HalfOpen =>
        MoveToOpen(now);
      case Open =>
    }

    method MoveToClosed()
      modifies this
      ensures Contents() == ToClosed(old(Contents()))
    {
      mode, failures, successes, halfOpenCalls := Closed, 0, 0, 0;
    }

    method MoveToOpen(now: int)
      modifies this
      ensures Contents() == ToOpen(old(Contents()), now)
    {
      mode, lastFailureTime := Open, now;
    }

    method MoveToHalfOpen()
      modifies this
      ensures Contents() == ToHalfOpen(old(Contents()))
    {
      mode, successes, halfOpenCalls := HalfOpen, 0, 0;
    }

    method Reset()
      modifies this
      ensures Contents() == ToClosed(old(Contents()))
    {
      MoveToClosed();
    }
  }
}
