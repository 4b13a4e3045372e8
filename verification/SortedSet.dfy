/**
 The Redis sorted set under one rate-limit key: a map from member to score, with the
 three commands the limiter sends, and the batches of members one call sends. Scores are
 what Redis stores, so `round` stands for the conversion of a time stamp to float64.
 */
module SortedSet {
  import opened MemberNames

  type ZSet = map<Member, int>

  // Scores stored without rounding.
  const EXACT: int -> int := x => x

  // ZREMRANGEBYSCORE key 0 cutoff
  function Trim(s: ZSet, cutoff: int): ZSet {
    map m | m in s && !(0 <= s[m] <= cutoff) :: s[m]
  }

  // ZADD key zs...
  function Add(s: ZSet, zs: ZSet): ZSet {
    s + zs
  }

  // ZREM key members...
  function Remove(s: ZSet, members: set<Member>): ZSet {
    s - members
  }

  // The n members a call stamped now sends as its batch.
  function Names(now: int, batch: nat, n: nat): (names: set<Member>)
    ensures forall m :: m in names <==> m.nanos == now && m.batch == batch && m.index < n
  {
    if n == 0 then {} else Names(now, batch, n - 1) + {Member(now, batch, n - 1)}
  }

  // The same batch with its scores: now, now + 1, ...
  function Batch(round: int -> int, now: int, batch: nat, n: nat): (zs: ZSet)
    ensures zs.Keys == Names(now, batch, n)
    ensures forall m | m in zs :: zs[m] == round(now + m.index)
  {
    if n == 0 then map[] else Batch(round, now, batch, n - 1)[Member(now, batch, n - 1) := round(now + n - 1)]
  }

  lemma {:induction false} NamesCount(now: int, batch: nat, n: nat)
    ensures |Names(now, batch, n)| == n
  {
    if n == 0 {
    } else {
      NamesCount(now, batch, n - 1);
    }
  }

  // Taking out a batch of new members undoes adding it.
  lemma RemoveUndoesAdd(s: ZSet, zs: ZSet)
    requires s.Keys !! zs.Keys
    ensures Remove(Add(s, zs), zs.Keys) == s
  {
  }

  // Every member carries one of the numbers 0..last.
  ghost predicate NamedBy(used: set<Member>, last: nat) {
    forall m | m in used :: m.batch <= last
  }

  /** Within one process, until the 64-bit counter wraps, the freshness a transaction needs always holds:
      whatever the clock reads, the members of the next batch are none of the earlier ones. */
  lemma NextBatchIsFresh(used: set<Member>, last: nat, now: int, n: nat)
    requires NamedBy(used, last)
    ensures Names(now, last + 1, n) !! used
    ensures NamedBy(used + Names(now, last + 1, n), last + 1)
  {
  }
}
