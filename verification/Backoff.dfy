/**
 The two capped-doubling delays: the Kafka consumer's calcBackoff, which doubles in int64
 and only then compares, and the gRPC client's boundedRetryDelay, which compares first.
 */
module Backoff {
  import opened Machine

  predicate PositiveInt64(x: int) {
    0 < x < TWO_63
  }

  // x * 2^n
  function Doubled(x: int, n: nat): int {
    if n == 0 then x else 2 * Doubled(x, n - 1)
  }

  // The delay both comments promise: min(x * 2^n, cap).
  function Ideal(x: int, cap: int, n: nat): int {
    if Doubled(x, n) < cap then Doubled(x, n) else cap
  }

  lemma {:induction false} DoubledGrows(x: int, m: nat, n: nat)
    requires 0 < x && m <= n
    ensures 0 < Doubled(x, m) <= Doubled(x, n)
    ensures m < n ==> Doubled(x, m) < Doubled(x, n)
  {
    if m < n {
      DoubledGrows(x, m, n - 1);
    } else if n > 0 {
      DoubledGrows(x, n - 1, n - 1);
    }
  }

  lemma {:induction false} DoubledShift(x: int, n: nat)
    ensures Doubled(2 * x, n) == Doubled(x, n + 1)
  {
    if n == 0 {
    } else {
      DoubledShift(x, n - 1);
    }
  }

  // Kafka

  datatype RetryConfig = RetryConfig(maxRetries: int, backoffMin: int, backoffMax: int)

  predicate Configured(rc: RetryConfig) {
    0 < rc.maxRetries && PositiveInt64(rc.backoffMin) && PositiveInt64(rc.backoffMax)
  }

  // Non-positive settings take the defaults.
  function NewRetryConfig(c: RetryConfig): (rc: RetryConfig)
    requires c.backoffMin < TWO_63 && c.backoffMax < TWO_63
    ensures Configured(rc)
    ensures if c.maxRetries > 0 then rc.maxRetries == c.maxRetries else rc.maxRetries == 5
    ensures if c.backoffMin > 0 then rc.backoffMin == c.backoffMin else rc.backoffMin == 100 * MILLISECOND
    ensures if c.backoffMax > 0 then rc.backoffMax == c.backoffMax else rc.backoffMax == 30 * SECOND
  {
    RetryConfig(if c.maxRetries <= 0 then 5 else c.maxRetries,
                if c.backoffMin <= 0 then 100 * MILLISECOND else c.backoffMin,
                if c.backoffMax <= 0 then 30 * SECOND else c.backoffMax)
  }

  // delay *= 2 on an int64: two's complement wrap-around.
  function Double64(delay: int): int {
    var d := 2 * delay;
    if d >= TWO_63 then d - TWO_64 else if d < -TWO_63 then d + TWO_64 else d
  }

  // n turns of the loop, starting from delay.
  function CalcLoop(delay: int, cap: int, n: nat): int
    decreases n
  {
    if n == 0 then delay
    else if Double64(delay) >= cap then cap
    else CalcLoop(Double64(delay), cap, n - 1)
  }

  function Calc(rc: RetryConfig, attempt: int): int {
    if attempt <= 0 then rc.backoffMin else CalcLoop(rc.backoffMin, rc.backoffMax, attempt)
  }

  method CalcBackoff(rc: RetryConfig, attempt: int) returns (delay: int)
    ensures delay == Calc(rc, attempt)
  {
    if attempt <= 0 {
      return rc.backoffMin;
    }
    delay := rc.backoffMin;
    var i := 0;
    while i < attempt
      invariant 0 <= i <= attempt
      invariant CalcLoop(delay, rc.backoffMax, attempt - i) == CalcLoop(rc.backoffMin, rc.backoffMax, attempt)
    {
      delay := Double64(delay);
      if delay >= rc.backoffMax {
        return rc.backoffMax;
      }
      i := i + 1;
    }
  }

  // The largest x * 2^k an int64 can hold.
  function Peak(x: int): (p: int)
    requires PositiveInt64(x)
    ensures x <= p < TWO_63 <= 2 * p
    decreases TWO_63 - x
  {
    if 2 * x >= TWO_63 then x else Peak(2 * x)
  }

  // Every doubling that matters fits: the first one, and those up to the cap.
  predicate NeverWraps(x: int, cap: int)
    requires PositiveInt64(x)
  {
    2 * x < TWO_63 && cap <= Peak(x)
  }

  lemma {:induction false} LoopIsIdeal(x: int, cap: int, n: nat)
    requires PositiveInt64(x) && PositiveInt64(cap) && NeverWraps(x, cap)
    ensures n > 0 || x <= cap ==> CalcLoop(x, cap, n) == Ideal(x, cap, n)
    decreases n
  {
    if n == 0 {
    } else {
      DoubledShift(x, n - 1);
      if 2 * x >= cap {
        DoubledGrows(x, 1, n);
        assert Doubled(x, 1) == 2 * Doubled(x, 0);
      } else if n > 1 {
        assert Peak(x) == Peak(2 * x);
        assert 2 * (2 * x) < TWO_63;
        LoopIsIdeal(2 * x, cap, n - 1);
      }
    }
  }

  // Otherwise the doubling that overshoots the cap wraps below zero and is not recognized.
  lemma {:induction false} LoopWraps(x: int, cap: int) returns (n: nat)
    requires PositiveInt64(x) && PositiveInt64(cap) && x <= cap && !NeverWraps(x, cap)
    ensures n > 0 && CalcLoop(x, cap, n) < 0 && Ideal(x, cap, n) == cap
    decreases TWO_63 - x
  {
    if 2 * x >= TWO_63 {
      n := 1;
      assert CalcLoop(Double64(x), cap, 0) == Double64(x);
      assert Doubled(x, 1) == 2 * Doubled(x, 0);
    } else {
      var m := LoopWraps(2 * x, cap);
      DoubledShift(x, m);
      n := m + 1;
    }
  }

  /** calcBackoff(n) is min(backoffMin * 2^n, backoffMax) for every n exactly when backoffMin <= backoffMax and
      no doubling up to the cap leaves int64. */
  lemma CalcIsIdeal(rc: RetryConfig)
    requires Configured(rc)
    ensures (forall n: nat {:trigger Calc(rc, n)} :: Calc(rc, n) == Ideal(rc.backoffMin, rc.backoffMax, n))
        <==> rc.backoffMin <= rc.backoffMax && NeverWraps(rc.backoffMin, rc.backoffMax)
  {
    var x, cap := rc.backoffMin, rc.backoffMax;
    if cap < x {
      assert Calc(rc, 0) == x && Ideal(x, cap, 0) == cap;
    } else if NeverWraps(x, cap) {
      forall n: nat ensures Calc(rc, n) == Ideal(x, cap, n) { LoopIsIdeal(x, cap, n); }
    } else {
      var n := LoopWraps(x, cap);
      assert Calc(rc, n) == CalcLoop(x, cap, n);
    }
  }

  // In particular every cap below 2^62 (146 years of nanoseconds) is safe.
  lemma CapsBelow2Pow62(rc: RetryConfig, n: nat)
    requires Configured(rc) && rc.backoffMin <= rc.backoffMax && 2 * rc.backoffMax < TWO_63
    ensures Calc(rc, n) == Ideal(rc.backoffMin, rc.backoffMax, n)
    ensures rc.backoffMin <= Calc(rc, n) <= rc.backoffMax
  {
    LoopIsIdeal(rc.backoffMin, rc.backoffMax, n);
    DoubledGrows(rc.backoffMin, 0, n);
  }

  // gRPC

  // The ceiling loop from turn i on.
  function CeilingLoop(ceiling: int, maximum: int, turns: nat): int
    decreases turns
  {
    if turns == 0 || ceiling >= maximum then ceiling
    else if ceiling > maximum / 2 then maximum
    else CeilingLoop(2 * ceiling, maximum, turns - 1)
  }

  lemma {:induction false} CeilingLoopIsIdeal(ceiling: int, maximum: int, turns: nat)
    requires 0 < ceiling && 0 < maximum
    ensures Ideal(ceiling, maximum, turns)
         == (if CeilingLoop(ceiling, maximum, turns) > maximum then maximum else CeilingLoop(ceiling, maximum, turns))
    decreases turns
  {
    DoubledGrows(ceiling, 0, turns);
    if turns > 0 && ceiling < maximum {
      DoubledGrows(ceiling, 1, turns);
      DoubledShift(ceiling, turns - 1);
      if ceiling <= maximum / 2 { CeilingLoopIsIdeal(2 * ceiling, maximum, turns - 1); }
    }
  }

  /** Equal-jitter backoff. For every positive base and any attempt the delay lies between half of
      min(base * 2^(attempt - 1), maximum) and that value itself, and no intermediate value leaves int64.
      random draws below a positive bound; randomFails says the random source gave up. */
  method BoundedRetryDelay(base: int, max: int, attempt: int, random: int -> int, randomFails: bool)
    returns (delay: int)
    requires base < TWO_63 && max < TWO_63
    requires forall bound | bound > 0 :: 0 <= random(bound) < bound
    ensures base <= 0 ==> delay == 0
    ensures base > 0 ==>
      var maximum := if max <= 0 then 2 * SECOND else max;
      var ceiling := Ideal(base, maximum, if attempt < 1 then 0 else attempt - 1);
      ceiling / 2 <= delay <= ceiling && 0 < ceiling < TWO_63
  {
    if base <= 0 {
      return 0;
    }
    var maximum := max;
    if maximum <= 0 {
      maximum := 2 * SECOND;
    }
    ghost var turns: nat := if attempt < 1 then 0 else attempt - 1;
    var ceiling := base;
    var i := 1;
    while i < attempt && ceiling < maximum
      invariant 1 <= i && (i <= attempt || i == 1) && 0 < ceiling < TWO_63
      invariant i <= turns + 1
      invariant CeilingLoop(ceiling, maximum, turns + 1 - i) == CeilingLoop(base, maximum, turns)
    {
      if ceiling > maximum / 2 {
        ceiling := maximum;
        break;
      }
      assert 2 * ceiling < TWO_63;
      ceiling := ceiling * 2;
      i := i + 1;
    }
    assert ceiling == CeilingLoop(base, maximum, turns);
    CeilingLoopIsIdeal(base, maximum, turns);
    if ceiling > maximum {
      ceiling := maximum;
    }
    DoubledGrows(base, 0, turns);
    var floor := ceiling / 2;
    var span := ceiling - floor;
    if span <= 0 {
      return ceiling;
    }
    if randomFails {
      return floor + span / 2;
    }
    delay := floor + random(span + 1);
  }
}
