/** The JWKS cache: last-known-good keys, a staleness cut-off and a rate limiter on refresh attempts. */
module Jwks {
  import opened Wrappers

  type Kid = string
  type Key = nat
  type KeySet = map<Kid, Key>

  datatype Params = Params(minRefetchInterval: nat, maxStale: nat)

  datatype Answer = Found(key: Key) | Stale | Unknown

  // The fields under c.mu; None is the zero time.
  datatype Cache = Cache(keys: KeySet, lastFetch: Option<int>, lastAttempt: Option<int>)

  const EMPTY := Cache(map[], None, None)

  datatype Snapshot = Snapshot(key: Option<Key>, lastFetch: Option<int>, lastAttempt: Option<int>)

  // time.Since(t) > d
  predicate Over(t: Option<int>, now: int, d: int) {
    t.None? || now - t.value > d
  }

  function Lookup(keys: KeySet, kid: Kid): Option<Key> {
    if kid in keys then Some(keys[kid]) else None
  }

  function Snap(c: Cache, kid: Kid): Snapshot {
    Snapshot(Lookup(c.keys, kid), c.lastFetch, c.lastAttempt)
  }

  predicate IsStale(p: Params, lastFetch: Option<int>, now: int) {
    Over(lastFetch, now, p.maxStale)
  }

  function Attempted(c: Cache, now: int): Cache {
    c.(lastAttempt := Some(now))
  }

  function Installed(c: Cache, keys: KeySet, now: int): Cache {
    c.(keys := keys, lastFetch := Some(now))
  }

  // The clock readings of one call, in program order.
  datatype Times = Times(first: int, rate: int, throttle: int, stale: int, attempt: int, install: int, third: int, final: int)

  predicate Ordered(t: Times) {
    t.first <= t.rate <= t.throttle <= t.stale <= t.attempt <= t.install <= t.third <= t.final
  }

  // The lookup needs a refresh and may have one.
  predicate Refreshes(p: Params, c: Cache, kid: Kid, t: Times) {
    (kid !in c.keys || IsStale(p, c.lastFetch, t.first)) && Over(c.lastAttempt, t.rate, p.minRefetchInterval)
  }

  // The cache an undisturbed lookup leaves.
  function AfterLookup(p: Params, c: Cache, kid: Kid, t: Times, fetched: Option<KeySet>): Cache {
    if !Refreshes(p, c, kid, t) then c
    else if fetched.Some? then Installed(Attempted(c, t.attempt), fetched.value, t.install)
    else Attempted(c, t.attempt)
  }

  // And its answer: from the cache it found if that will do, else from the one it leaves.
  function Answered(p: Params, c: Cache, kid: Kid, t: Times, fetched: Option<KeySet>): Answer {
    var c' := AfterLookup(p, c, kid, t, fetched);
    if kid in c.keys && !IsStale(p, c.lastFetch, t.first) then Found(c.keys[kid])
    else if kid !in c'.keys then Unknown
    else if IsStale(p, c'.lastFetch, t.final) then Stale
    else Found(c'.keys[kid])
  }

  class JwksCache {
    const params: Params
    var keys: KeySet
    var lastFetch: Option<int>
    var lastAttempt: Option<int>

    function Contents(): Cache
      reads this
    {
      Cache(keys, lastFetch, lastAttempt)
    }

    constructor (p: Params)
      ensures Contents() == EMPTY && params == p
    {
      params := p;
      keys, lastFetch, lastAttempt := map[], None, None;
    }

    // The attempt is recorded before the fetch; only a fetch that also parses installs anything.
    method RefreshNow(attempt: int, fetched: Option<KeySet>, install: int) returns (ok: bool)
      modifies this
      ensures ok == fetched.Some?
      ensures Contents() == if ok then Installed(Attempted(old(Contents()), attempt), fetched.value, install)
                            else Attempted(old(Contents()), attempt)
    {
      lastAttempt := Some(attempt);
      if fetched.None? {
        return false;
      }
      keys, lastFetch := fetched.value, Some(install);
      return true;
    }

    /** One lookup with nobody else running: it refreshes once, exactly when the key is missing or stale and the
        limiter allows, and returns a key exactly when the set it is in is fresh. */
    method PublicKey(kid: Kid, t: Times, fetched: Option<KeySet>) returns (answer: Answer)
      requires Ordered(t)
      modifies this
      ensures Contents() == AfterLookup(params, old(Contents()), kid, t, fetched)
      ensures answer == Answered(params, old(Contents()), kid, t, fetched)
      ensures answer.Found? ==>
        kid in keys && keys[kid] == answer.key && lastFetch.Some? && t.first - lastFetch.value <= params.maxStale
    {
      var snap := Snap(Contents(), kid);
      if snap.key.Some? && !IsStale(params, snap.lastFetch, t.first) {
        return Found(snap.key.value);
      }
      if Over(snap.lastAttempt, t.rate, params.minRefetchInterval) {
        snap := Snap(Contents(), kid);
        var throttled := !Over(snap.lastAttempt, t.throttle, params.minRefetchInterval);
        if (snap.key.None? || IsStale(params, snap.lastFetch, t.stale)) && !throttled {
          var ok := RefreshNow(t.attempt, fetched, t.install);
          snap := Snap(Contents(), kid);
          if !ok && snap.key.Some? && IsStale(params, snap.lastFetch, t.third) {
            return Stale;
          }
        }
      }
      snap := Snap(Contents(), kid);
      if snap.key.Some? {
        return if IsStale(params, snap.lastFetch, t.final) then Stale else Found(snap.key.value);
      }
      return Unknown;
    }
  }
}
