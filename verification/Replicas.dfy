/**
 The read side of the replica pool: which replicas are usable, and which one a read goes to.
 Counter arithmetic is that of int64, with the remainder truncated towards zero.
 */
module Replicas {
  import opened Machine
  import opened Wrappers

  type Pool = nat

  datatype Balancing = RoundRobin | Random | LeastLag | Unrecognized

  datatype PoolConfig = PoolConfig(balancing: Balancing, maxReplicaLag: int, fallbackToPrimary: bool)

  datatype Replica = Replica(pool: Pool, healthy: bool, lag: int)

  // A read goes to a pool, or indexes the healthy replicas out of range.
  datatype Choice = Pick(pool: Pool) | Panics

  const STRIDE: int := 31

  function TruncMod(x: int, m: int): int
    requires m > 0
  {
    if x >= 0 then x % m else -((-x) % m)
  }

  predicate Usable(maxLag: int, r: Replica) {
    r.healthy && r.lag <= maxLag
  }

  // The usable replicas, in configuration order.
  function Healthy(maxLag: int, replicas: seq<Replica>): (hs: seq<Replica>)
    ensures |hs| <= |replicas|
    ensures forall r :: r in hs <==> r in replicas && Usable(maxLag, r)
  {
    if replicas == [] then []
    else
      var front, last := Healthy(maxLag, replicas[..|replicas| - 1]), replicas[|replicas| - 1];
      assert replicas == replicas[..|replicas| - 1] + [last];
      if Usable(maxLag, last) then front + [last] else front
  }

  // The position a counter value picks among m replicas; negative positions panic.
  function Index(balancing: Balancing, idx: int, m: int): int
    requires m > 0
  {
    TruncMod(if balancing == Random then Int64(idx * STRIDE) else idx, m)
  }

  // The first of the least lagging.
  predicate IsLeastLag(replicas: seq<Replica>, i: nat) {
    && i < |replicas|
    && (forall j | 0 <= j < |replicas| :: replicas[i].lag <= replicas[j].lag)
    && forall j | 0 <= j < i :: replicas[i].lag < replicas[j].lag
  }

  class ReplicaPool {
    const primary: Pool
    const config: PoolConfig
    var replicas: seq<Replica>
    var counter: int

    constructor (primary: Pool, pools: seq<Pool>, config: PoolConfig)
      ensures this.primary == primary && this.config == config && counter == 0
      ensures |replicas| == |pools|
      ensures forall i | 0 <= i < |pools| :: replicas[i] == Replica(pools[i], true, 0)
    {
      this.primary, this.config, this.counter := primary, config, 0;
      this.replicas := seq(|pools|, i requires 0 <= i < |pools| => Replica(pools[i], true, 0));
    }

    method HealthyReplicas() returns (healthy: seq<Replica>)
      ensures healthy == Healthy(config.maxReplicaLag, replicas)
    {
      healthy := [];
      for i := 0 to |replicas|
        invariant healthy == Healthy(config.maxReplicaLag, replicas[..i])
      {
        assert replicas[..i + 1][..i] == replicas[..i];
        var r := replicas[i];
        if r.healthy && r.lag <= config.maxReplicaLag {
          healthy := healthy + [r];
        }
      }
      assert replicas[..|replicas|] == replicas;
    }

    static method LeastLagReplica(replicas: seq<Replica>) returns (r: Option<Replica>)
      ensures r.None? <==> replicas == []
      ensures r.Some? ==> exists i: nat :: IsLeastLag(replicas, i) && r.value == replicas[i]
    {
      if |replicas| == 0 {
        return None;
      }
      var least, leastLag := replicas[0], replicas[0].lag;
      ghost var at := 0;
      for i := 1 to |replicas|
        invariant at < i && replicas[at] == least && least.lag == leastLag
        invariant forall j | 0 <= j < i :: leastLag <= replicas[j].lag
        invariant forall j | 0 <= j < at :: leastLag < replicas[j].lag
      {
        if replicas[i].lag < leastLag {
          least, leastLag := replicas[i], replicas[i].lag;
          at := i;
        }
      }
      assert IsLeastLag(replicas, at);
      return Some(least);
    }

    /** Where a read goes. Only a read balanced by the counter moves it. */
    method Reader() returns (choice: Choice)
      modifies this`counter
      ensures
        var hs := Healthy(config.maxReplicaLag, replicas);
        if hs == [] then
          && counter == old(counter)
          && choice == Pick(if config.fallbackToPrimary || replicas == [] then primary else replicas[0].pool)
        else if config.balancing == LeastLag then
          && counter == old(counter)
          && exists i: nat :: IsLeastLag(hs, i) && choice == Pick(hs[i].pool)
        else
          && counter == Int64(old(counter) + 1)
          && choice == Drawn(config.balancing, hs, old(counter))
    {
      var healthy := HealthyReplicas();
      if |healthy| == 0 {
        if config.fallbackToPrimary {
          return Pick(primary);
        }
        if |replicas| > 0 {
          return Pick(replicas[0].pool);
        }
        return Pick(primary);
      }
      if config.balancing == LeastLag {
        var least := LeastLagReplica(healthy);
        return Pick(least.value.pool);
      }
      counter := Int64(counter + 1);
      var idx := if config.balancing == Random then Int64(counter * STRIDE) else counter;
      var at := TruncMod(idx, |healthy|);
      if at < 0 {
        return Panics;
      }
      return Pick(healthy[at].pool);
    }

    /** A health check. A replica that answers stays usable when its lag cannot be measured; one that does not
        answer keeps its last lag. */
    method CheckReplicasHealth(answers: seq<bool>, lags: seq<Option<int>>)
      requires |answers| == |lags| == |replicas|
      modifies this`replicas
      ensures |replicas| == |old(replicas)|
      ensures forall i | 0 <= i < |replicas| ::
        && replicas[i].pool == old(replicas)[i].pool
        && (Usable(config.maxReplicaLag, replicas[i]) <==>
              answers[i] && (lags[i].Some? ==> lags[i].value <= config.maxReplicaLag))
        && (!answers[i] ==> replicas[i].lag == old(replicas)[i].lag)
    {
      var i := 0;
      while i < |replicas|
        invariant 0 <= i <= |replicas| == |old(replicas)|
        invariant forall j | i <= j < |replicas| :: replicas[j] == old(replicas)[j]
        invariant forall j | 0 <= j < i ::
          && replicas[j].pool == old(replicas)[j].pool
          && (Usable(config.maxReplicaLag, replicas[j]) <==>
                answers[j] && (lags[j].Some? ==> lags[j].value <= config.maxReplicaLag))
          && (!answers[j] ==> replicas[j].lag == old(replicas)[j].lag)
      {
        var r := replicas[i];
        if !answers[i] {
          replicas := replicas[i := r.(healthy := false)];
        } else if lags[i].None? {
          replicas := replicas[i := r.(healthy := true, lag := config.maxReplicaLag)];
        } else {
          replicas := replicas[i := r.(healthy := true, lag := lags[i].value)];
        }
        i := i + 1;
      }
    }
  }

  // What the read that moves the counter on from c draws.
  function Drawn(balancing: Balancing, hs: seq<Replica>, c: int): Choice
    requires hs != []
  {
    var at := Index(balancing, Int64(c + 1), |hs|);
    if at < 0 then Panics else Pick(hs[at].pool)
  }

  // ----- Fairness -----

  // The choices of n reads one after the other, from counter c.
  function Reads(balancing: Balancing, hs: seq<Replica>, c: int, n: nat): seq<Choice>
    requires hs != []
  {
    if n == 0 then [] else Reads(balancing, hs, c, n - 1) + [Drawn(balancing, hs, Int64(c + n - 1))]
  }

  function Count(choices: seq<Choice>, x: Choice): nat {
    if choices == [] then 0
    else Count(choices[..|choices| - 1], x) + if choices[|choices| - 1] == x then 1 else 0
  }

  predicate DistinctPools(hs: seq<Replica>) {
    forall i, j | 0 <= i < j < |hs| :: hs[i].pool != hs[j].pool
  }

  lemma {:induction false} HealthyStayDistinct(maxLag: int, replicas: seq<Replica>)
    requires DistinctPools(replicas)
    ensures DistinctPools(Healthy(maxLag, replicas))
  {
    if replicas == [] {
    } else {
      var front, last := replicas[..|replicas| - 1], replicas[|replicas| - 1];
      HealthyStayDistinct(maxLag, front);
      var hs := Healthy(maxLag, front);
      forall i | 0 <= i < |hs|
        ensures hs[i].pool != last.pool
      {
        assert hs[i] in front;
      }
    }
  }

  // How many of c + 1 .. c + n leave remainder t.
  function Hits(c: int, n: nat, m: int, t: int): nat
    requires m > 0
  {
    if n == 0 then 0 else Hits(c, n - 1, m, t) + if (c + n) % m == t then 1 else 0
  }

  lemma SmallMultiple(d: int, m: int)
    requires m > 0 && -m < d * m < m
    ensures d == 0
  {
  }

  lemma ModUnique(x: int, q: int, r: int, m: int)
    requires m > 0 && x == q * m + r && 0 <= r < m
    ensures x % m == r
  {
    assert (x / m - q) * m == r - x % m;
    SmallMultiple(x / m - q, m);
  }

  // A window of at most m numbers that starts just past c hits t once or not at all.
  lemma {:induction false} HitsPartial(c: int, n: nat, m: int, t: int)
    requires m > 0 && n <= m && 0 <= t < m
    ensures Hits(c, n, m, t) == if (t - c - 1) % m < n then 1 else 0
  {
    if n == 0 {
    } else {
      HitsPartial(c, n - 1, m, t);
      HitIsOffset(c, n, m, t);
    }
  }

  lemma HitIsOffset(c: int, n: nat, m: int, t: int)
    requires m > 0 && 0 < n <= m && 0 <= t < m
    ensures (c + n) % m == t <==> (t - c - 1) % m == n - 1
  {
    if (c + n) % m == t {
      ModUnique(t - c - 1, -((c + n) / m), n - 1, m);
    }
    if (t - c - 1) % m == n - 1 {
      ModUnique(c + n, -((t - c - 1) / m), t, m);
    }
  }

  lemma {:induction false} HitsSplit(c: int, n: nat, k: nat, m: int, t: int)
    requires m > 0
    ensures Hits(c, n + k, m, t) == Hits(c, n, m, t) + Hits(c + n, k, m, t)
  {
    if k == 0 {
    } else {
      HitsSplit(c, n, k - 1, m, t);
      assert n + k - 1 == n + (k - 1) && c + (n + k) == (c + n) + k;
    }
  }

  lemma OneMoreRound(c: int, n: nat, m: int, t: int)
    requires m > 0 && 0 <= t < m
    ensures Hits(c, n + m, m, t) == Hits(c, n, m, t) + 1
  {
    hide Hits;
    HitsSplit(c, n, m, m, t);
    HitsPartial(c + n, m, m, t);
  }

  // Any k * m consecutive numbers hit every remainder k times.
  lemma {:induction false} HitsAreEven(c: int, k: nat, m: int, t: int)
    requires m > 0 && 0 <= t < m
    ensures Hits(c, k * m, m, t) == k
  {
    if k == 0 {
      assert k * m == 0;
    } else {
      HitsAreEven(c, k - 1, m, t);
      hide Hits;
      assert k * m == (k - 1) * m + m;
      OneMoreRound(c, (k - 1) * m, m, t);
    }
  }

  lemma RoundRobinDraw(balancing: Balancing, hs: seq<Replica>, c: int)
    requires hs != [] && balancing != Random && 0 <= c < TWO_63 - 1
    ensures 0 <= (c + 1) % |hs| < |hs| && Drawn(balancing, hs, c) == Pick(hs[(c + 1) % |hs|].pool)
  {
    hide Int64;
    Int64Keeps(c + 1);
  }

  lemma RandomDraw(hs: seq<Replica>, c: int)
    requires hs != [] && 0 <= c && (c + 1) * STRIDE < TWO_63
    ensures
      var at := ((c + 1) * STRIDE) % |hs|;
      0 <= at < |hs| && Drawn(Random, hs, c) == Pick(hs[at].pool)
  {
    hide Int64;
    Int64Keeps(c + 1);
    Int64Keeps((c + 1) * STRIDE);
  }

  lemma CountSnoc(choices: seq<Choice>, y: Choice, x: Choice)
    ensures Count(choices + [y], x) == Count(choices, x) + if y == x then 1 else 0
  {
    assert (choices + [y])[..|choices|] == choices;
  }

  lemma SamePool(hs: seq<Replica>, i: nat, j: nat)
    requires DistinctPools(hs) && i < |hs| && j < |hs|
    ensures hs[i].pool == hs[j].pool <==> i == j
  {
  }

  lemma {:induction false} RoundRobinCounts(balancing: Balancing, hs: seq<Replica>, c: int, n: nat, i: nat)
    requires hs != [] && balancing != Random && DistinctPools(hs) && i < |hs| && 0 <= c && c + n < TWO_63
    ensures Count(Reads(balancing, hs, c, n), Pick(hs[i].pool)) == Hits(c, n, |hs|, i)
  {
    hide Drawn, Int64, DistinctPools, Count;
    if n == 0 {
      CountNothing(Pick(hs[i].pool));
    } else {
      RoundRobinCounts(balancing, hs, c, n - 1, i);
      Int64Keeps(c + n - 1);
      RoundRobinDraw(balancing, hs, c + n - 1);
      SamePool(hs, (c + n) % |hs|, i);
      CountSnoc(Reads(balancing, hs, c, n - 1), Drawn(balancing, hs, c + n - 1), Pick(hs[i].pool));
    }
  }

  lemma CountNothing(x: Choice)
    ensures Count([], x) == 0
  {
  }

  /** Round robin, and any unrecognized strategy: k rounds over m unchanged usable replicas read each exactly k
      times, wherever the counter starts. */
  lemma {:induction false} RoundRobinIsFair(balancing: Balancing, hs: seq<Replica>, c: int, k: nat, i: nat)
    requires balancing in {RoundRobin, Unrecognized} && DistinctPools(hs) && i < |hs|
    requires 0 <= c && c + k * |hs| < TWO_63
    ensures Count(Reads(balancing, hs, c, k * |hs|), Pick(hs[i].pool)) == k
  {
    hide *;
    RoundRobinCounts(balancing, hs, c, k * |hs|, i);
    HitsAreEven(c, k, |hs|, i);
  }

  lemma ModCongruent(x: int, y: int, k: int, m: int)
    requires m > 0 && x == y + k * m
    ensures x % m == y % m
  {
    assert x == (y / m + k) * m + y % m;
    ModUnique(x, y / m + k, y % m, m);
  }

  // COFACTOR[r] * r + 1 is a multiple of the stride, for every r it does not divide.
  const COFACTOR: seq<int> := [0, 30, 15, 10, 23, 6, 5, 22, 27, 24, 3, 14, 18, 19, 11, 2, 29, 20, 12, 13, 17, 28, 7, 4, 9, 26, 25, 8, 21, 16, 1]

  lemma Cofactor(r: nat)
    requires 0 < r < STRIDE
    ensures (COFACTOR[r] * r + 1) % STRIDE == 0
  {
  }

  // The stride has an inverse modulo every m it does not divide.
  lemma StrideInverse(m: nat) returns (u: int, v: int)
    requires m % STRIDE != 0
    ensures u * STRIDE == 1 + v * m
  {
    var q, r := m / STRIDE, m % STRIDE;
    Cofactor(r);
    v := COFACTOR[r];
    var w := (v * r + 1) / STRIDE;
    u := v * q + w;
    Collect(m, q, r, v, w);
  }

  lemma Collect(m: int, q: int, r: int, v: int, w: int)
    requires m == STRIDE * q + r && v * r + 1 == STRIDE * w
    ensures (v * q + w) * STRIDE == 1 + v * m
  {
    assert v * m == v * (STRIDE * q) + v * r;
    assert v * (STRIDE * q) == STRIDE * (v * q);
  }

  lemma StrideTurns(x: int, i: int, m: int, u: int, v: int)
    requires 0 <= i < m && u * STRIDE == 1 + v * m
    ensures (x * STRIDE) % m == i <==> x % m == (u * i) % m
  {
    if (x * STRIDE) % m == i {
      var q := (x * STRIDE) / m;
      StrideForth(x, i, m, u, v, q);
      ModCongruent(x, u * i, u * q - v * x, m);
    }
    if x % m == (u * i) % m {
      var k := x / m - (u * i) / m;
      StrideBack(x, i, m, u, v, k);
      ModCongruent(x * STRIDE, i, v * i + k * STRIDE, m);
      ModUnique(i, 0, i, m);
    }
  }

  lemma StrideForth(x: int, i: int, m: int, u: int, v: int, q: int)
    requires x * STRIDE == q * m + i && u * STRIDE == 1 + v * m
    ensures x == u * i + (u * q - v * x) * m
  {
    calc {
      x;
      x * (u * STRIDE) - x * (v * m);
      u * (x * STRIDE) - (v * x) * m;
      u * (q * m + i) - (v * x) * m;
      u * i + (u * q) * m - (v * x) * m;
      u * i + (u * q - v * x) * m;
    }
  }

  lemma StrideBack(x: int, i: int, m: int, u: int, v: int, k: int)
    requires m > 0 && x % m == (u * i) % m && k == x / m - (u * i) / m && u * STRIDE == 1 + v * m
    ensures x * STRIDE == i + (v * i + k * STRIDE) * m
  {
    assert x == u * i + k * m;
    calc {
      x * STRIDE;
      (u * STRIDE) * i + (k * STRIDE) * m;
      (1 + v * m) * i + (k * STRIDE) * m;
      i + (v * i) * m + (k * STRIDE) * m;
      i + (v * i + k * STRIDE) * m;
    }
  }

  lemma {:induction false} RandomCounts(hs: seq<Replica>, c: int, n: nat, i: nat, u: int, v: int)
    requires hs != [] && DistinctPools(hs) && i < |hs| && 0 <= c && (c + n) * STRIDE < TWO_63
    requires u * STRIDE == 1 + v * |hs|
    ensures Count(Reads(Random, hs, c, n), Pick(hs[i].pool)) == Hits(c, n, |hs|, (u * i) % |hs|)
  {
    hide Drawn, Int64, DistinctPools, Count;
    if n == 0 {
      CountNothing(Pick(hs[i].pool));
    } else {
      RandomCounts(hs, c, n - 1, i, u, v);
      Int64Keeps(c + n - 1);
      RandomDraw(hs, c + n - 1);
      SamePool(hs, ((c + n) * STRIDE) % |hs|, i);
      StrideTurns(c + n, i, |hs|, u, v);
      CountSnoc(Reads(Random, hs, c, n - 1), Drawn(Random, hs, c + n - 1), Pick(hs[i].pool));
    }
  }

  /** The "random" strategy is just as fair when 31 does not divide the number of usable replicas. */
  lemma {:induction false} RandomIsFair(hs: seq<Replica>, c: int, k: nat, i: nat)
    requires DistinctPools(hs) && i < |hs| && |hs| % STRIDE != 0
    requires 0 <= c && (c + k * |hs|) * STRIDE < TWO_63
    ensures Count(Reads(Random, hs, c, k * |hs|), Pick(hs[i].pool)) == k
  {
    hide *;
    var u, v := StrideInverse(|hs|);
    RandomCounts(hs, c, k * |hs|, i, u, v);
    HitsAreEven(c, k, |hs|, (u * i) % |hs|);
  }

  lemma StrideSticks(x: int, m: int)
    requires m > 0 && m % STRIDE == 0
    ensures (x * STRIDE) % m % STRIDE == 0
  {
    var d, q := m / STRIDE, (x * STRIDE) / m;
    assert (x * STRIDE) % m == x * STRIDE - q * (d * STRIDE) == (x - q * d) * STRIDE;
  }

  lemma {:induction false} RandomSkips(hs: seq<Replica>, c: int, n: nat, i: nat)
    requires DistinctPools(hs) && i < |hs| && |hs| % STRIDE == 0 && i % STRIDE != 0
    requires 0 <= c && (c + n) * STRIDE < TWO_63
    ensures Count(Reads(Random, hs, c, n), Pick(hs[i].pool)) == 0
  {
    hide Drawn, Int64, DistinctPools, Count;
    if n == 0 {
      CountNothing(Pick(hs[i].pool));
    } else {
      RandomSkips(hs, c, n - 1, i);
      Int64Keeps(c + n - 1);
      RandomDraw(hs, c + n - 1);
      SamePool(hs, ((c + n) * STRIDE) % |hs|, i);
      StrideSticks(c + n, |hs|);
      CountSnoc(Reads(Random, hs, c, n - 1), Drawn(Random, hs, c + n - 1), Pick(hs[i].pool));
    }
  }

  ghost predicate EvenRound(hs: seq<Replica>, c: int)
    requires hs != []
  {
    forall i | 0 <= i < |hs| :: Count(Reads(Random, hs, c, |hs|), Pick(hs[i].pool)) == 1
  }

  /** And only then: when 31 divides it, a round of "random" leaves replicas out. */
  lemma RandomIsFairIff(hs: seq<Replica>, c: int)
    requires hs != [] && DistinctPools(hs) && 0 <= c && (c + |hs|) * STRIDE < TWO_63
    ensures EvenRound(hs, c) <==> |hs| % STRIDE != 0
  {
    hide Count, Reads, DistinctPools;
    if |hs| % STRIDE != 0 {
      forall i | 0 <= i < |hs|
        ensures Count(Reads(Random, hs, c, |hs|), Pick(hs[i].pool)) == 1
      {
        assert 1 * |hs| == |hs|;
        RandomIsFair(hs, c, 1, i);
      }
    } else {
      assert |hs| > 1;
      RandomSkips(hs, c, |hs|, 1);
    }
  }

  // The number whose remainder picks a replica, when the counter moves on from c: the counter itself, or the counter
  // times the stride, in int64.
  function PickNumber(balancing: Balancing, c: int): int {
    if balancing == Random then Int64(Int64(c + 1) * STRIDE) else Int64(c + 1)
  }

  // A truncated remainder is negative exactly for a negative number that m does not divide.
  lemma TruncModNegative(x: int, m: int)
    requires m > 0
    ensures TruncMod(x, m) < 0 <==> x < 0 && x % m != 0
  {
    if x < 0 {
      if (-x) % m == 0 {
        ModUnique(x, -((-x) / m), 0, m);
      } else {
        ModUnique(x, -((-x) / m) - 1, m - (-x) % m, m);
      }
    }
  }

  /** Exactly when a read indexes out of range, for every strategy that counts, every counter and every number of usable
      replicas: when the int64 number that picks is negative and no multiple of that number. A single replica
      therefore never fails, and no strategy fails before its number has wrapped. */
  lemma ReadPanicsIff(balancing: Balancing, hs: seq<Replica>, c: int)
    requires hs != []
    ensures Drawn(balancing, hs, c) == Panics <==> PickNumber(balancing, c) < 0 && PickNumber(balancing, c) % |hs| != 0
  {
    hide Int64, TruncMod;
    TruncModNegative(PickNumber(balancing, c), |hs|);
  }

  // The first number to wrap: of round robin the (2^63)-th read's, of "random" a 31st of the way there.
  lemma FirstWrap(c: int)
    requires 0 <= c < TWO_63
    ensures PickNumber(RoundRobin, c) < 0 <==> c == TWO_63 - 1
    ensures c <= TWO_63 / STRIDE ==> (PickNumber(Random, c) < 0 <==> c == TWO_63 / STRIDE)
  {
    if c + 1 < TWO_63 {
      Int64Keeps(c + 1);
    }
  }
}
