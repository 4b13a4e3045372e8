/**
 The sliding-window limiter: one trim/count/add transaction per call, and a second,
 separate transaction that takes a denied batch back out.
 */
module RateLimiter {
  import opened MemberNames
  import opened SortedSet

  const MAX_UINT64: nat := 0xFFFF_FFFF_FFFF_FFFF

  datatype Decision = Decision(allowed: bool, remaining: int, resetAfter: int, limit: int)

  // Entries left after the window trim of a transaction stamped now.
  function Trimmed(round: int -> int, window: int, entries: ZSet, now: int): ZSet {
    Trim(entries, round(now - window))
  }

  // The set after the whole first transaction.
  function Attempted(round: int -> int, window: int, entries: ZSet, now: int, batch: nat, n: nat): ZSet {
    Add(Trimmed(round, window, entries, now), Batch(round, now, batch, n))
  }

  function Decide(limit: int, window: int, count: nat, n: nat): Decision {
    Decision(count + n <= limit, if limit - count - n < 0 then 0 else limit - count - n, window, limit)
  }

  // The batch number after last in a 64-bit counter that wraps.
  function NextNumber(last: nat): nat {
    if last == MAX_UINT64 then 0 else last + 1
  }

  // The process-wide batch counter.
  class MemberSequence {
    var last: nat

    constructor ()
      ensures last == 0
    {
      last := 0;
    }

    method NewMembers(round: int -> int, now: int, n: nat) returns (members: ZSet)
      modifies this
      ensures last == NextNumber(old(last))
      ensures members == Batch(round, now, last, n)
      ensures old(last) < MAX_UINT64 ==>
        forall used {:trigger NamedBy(used, old(last))} | NamedBy(used, old(last)) ::
          members.Keys !! used && NamedBy(used + members.Keys, last)
    {
      ghost var before := last;
      last := NextNumber(last);
      members := Fill(round, now, last, n);
      if before < MAX_UINT64 {
        forall used {:trigger NamedBy(used, before)} | NamedBy(used, before)
          ensures members.Keys !! used && NamedBy(used + members.Keys, last)
        {
          NextBatchIsFresh(used, before, now, n);
        }
      }
    }

    // The slice-filling loop.
    static method Fill(round: int -> int, now: int, batch: nat, n: nat) returns (members: ZSet)
      ensures members == Batch(round, now, batch, n)
    {
      members := map[];
      for i := 0 to n
        invariant members == Batch(round, now, batch, i)
      {
        members := members[Member(now, batch, i) := round(now + i)];
      }
    }
  }

  // The set after a denied call's rollback.
  function RolledBack(round: int -> int, window: int, entries: ZSet, now: int, batch: nat, n: nat): ZSet {
    Remove(Attempted(round, window, entries, now, batch, n), Names(now, batch, n))
  }

  // The rollback of a batch of the next number leaves exactly the trimmed set: a denial costs no quota.
  lemma RollbackRestores(round: int -> int, window: int, entries: ZSet, last: nat, now: int, n: nat)
    requires NamedBy(entries.Keys, last)
    ensures RolledBack(round, window, entries, now, last + 1, n) == Trimmed(round, window, entries, now)
  {
    var kept := Trimmed(round, window, entries, now);
    NextBatchIsFresh(kept.Keys, last, now, n);
    RemoveUndoesAdd(kept, Batch(round, now, last + 1, n));
  }

  lemma RolledBackMeans(round: int -> int, window: int, entries: ZSet, now: int, batch: nat, n: nat)
    ensures RolledBack(round, window, entries, now, batch, n)
         == Remove(Attempted(round, window, entries, now, batch, n), Batch(round, now, batch, n).Keys)
  {
    hide Attempted, Names, Batch;
    BatchKeys(round, now, batch, n);
  }

  lemma BatchKeys(round: int -> int, now: int, batch: nat, n: nat)
    ensures Batch(round, now, batch, n).Keys == Names(now, batch, n)
  {
  }

  // A transaction of the next number adds n entries to the trimmed set.
  lemma AttemptGrows(round: int -> int, window: int, entries: ZSet, last: nat, now: int, n: nat)
    requires NamedBy(entries.Keys, last)
    ensures |Attempted(round, window, entries, now, last + 1, n)| == |Trimmed(round, window, entries, now)| + n
    ensures NamedBy(Attempted(round, window, entries, now, last + 1, n).Keys, last + 1)
    ensures NamedBy(Trimmed(round, window, entries, now).Keys, last + 1)
  {
    var kept, added := Trimmed(round, window, entries, now), Batch(round, now, last + 1, n);
    NextBatchIsFresh(kept.Keys, last, now, n);
    NamesCount(now, last + 1, n);
    assert (kept + added).Keys == kept.Keys + added.Keys;
    assert |(kept + added).Keys| == |kept + added| && |kept.Keys| == |kept|;
  }

  class Limiter {
    const limit: int
    const window: int
    const round: int -> int
    const sequence: MemberSequence
    var entries: ZSet

    constructor (limit: int, window: int, round: int -> int, sequence: MemberSequence)
      ensures this.limit == limit && this.window == window && this.round == round && this.sequence == sequence
      ensures entries == map[]
    {
      this.limit, this.window, this.round, this.sequence := limit, window, round, sequence;
      entries := map[];
    }

    // The atomic transaction: trim, count, add. It always adds, whatever the count is.
    method Transact(now: int, n: nat) returns (members: ZSet, count: nat)
      modifies this, sequence
      ensures sequence.last == NextNumber(old(sequence.last))
      ensures members == Batch(round, now, sequence.last, n)
      ensures count == |Trimmed(round, window, old(entries), now)|
      ensures entries == Attempted(round, window, old(entries), now, sequence.last, n)
    {
      entries := Trim(entries, round(now - window));
      count := |entries|;
      members := sequence.NewMembers(round, now, n);
      entries := Add(entries, members);
    }

    // The rollback transaction. A failed one leaves the denied batch in place.
    method Rollback(members: ZSet, succeeds: bool)
      modifies this
      ensures entries == if succeeds then Remove(old(entries), members.Keys) else old(entries)
    {
      if succeeds {
        entries := Remove(entries, members.Keys);
      }
    }

    // One whole call with nobody else in between.
    method AllowN(now: int, n: nat, rollbackSucceeds: bool) returns (result: Decision)
      modifies this, sequence
      ensures sequence.last == NextNumber(old(sequence.last))
      ensures result == Decide(limit, window, |Trimmed(round, window, old(entries), now)|, n)
      ensures entries == if !result.allowed && rollbackSucceeds
                         then RolledBack(round, window, old(entries), now, sequence.last, n)
                         else Attempted(round, window, old(entries), now, sequence.last, n)
      ensures old(sequence.last) < MAX_UINT64 && NamedBy(old(entries).Keys, old(sequence.last)) ==>
        && NamedBy(entries.Keys, sequence.last)
        && (!result.allowed && rollbackSucceeds ==> entries == Trimmed(round, window, old(entries), now))
        && (result.allowed || !rollbackSucceeds ==> |entries| == |Trimmed(round, window, old(entries), now)| + n)
    {
      hide Trimmed, Attempted, RolledBack, NamedBy, Batch, Names;
      ghost var before, number := entries, sequence.last;
      var members, count := Transact(now, n);
      if number < MAX_UINT64 && NamedBy(before.Keys, number) {
        AttemptGrows(round, window, before, number, now, n);
        RollbackRestores(round, window, before, number, now, n);
      }
      var allowed := count + n <= limit;
      var remaining := limit - count - n;
      if remaining < 0 {
        remaining := 0;
      }
      result := Decision(allowed, remaining, window, limit);
      if !allowed {
        Rollback(members, rollbackSucceeds);
        RolledBackMeans(round, window, before, now, sequence.last, n);
      }
    }

    method GetCount(now: int) returns (count: nat)
      modifies this
      ensures entries == Trimmed(round, window, old(entries), now) && count == |entries|
    {
      entries := Trim(entries, round(now - window));
      count := |entries|;
    }
  }
}
