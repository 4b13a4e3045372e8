/** Which turn of a script ends a loop, and how: each loop goes on exactly until its first decisive turn. */
module KafkaRetryDecision {
  import opened Wrappers
  import opened Backoff
  import opened KafkaErrors
  import opened KafkaRetry
  import opened KafkaRetryRuns

  // A dead-letter turn that is to be repeated.
  predicate DlqRepeats(c: Consumer, msg: Message, error: Error, t: DlqTurn) {
    (RecordOf(c, msg, error, t).None? || !t.acknowledged) && !t.canceled
  }

  predicate DlqRepeatsAll(c: Consumer, msg: Message, error: Error, turns: seq<DlqTurn>) {
    forall i | 0 <= i < |turns| :: DlqRepeats(c, msg, error, turns[i])
  }

  /** The dead-letter loop repeats until the first turn that is acknowledged or cancelled, however long that takes, and
      ends as that turn says. */
  lemma {:induction false} FirstDecisiveDlqTurn(c: Consumer, msg: Message, error: Error, turns: seq<DlqTurn>, attempt: nat,
                                                retaining: bool, log: seq<Effect>) returns (n: nat)
    ensures n <= |turns| && DlqRepeatsAll(c, msg, error, turns[..n])
    ensures n < |turns| ==> !DlqRepeats(c, msg, error, turns[n])
    ensures SendUntilSuccess(c, msg, error, turns, attempt, retaining, log).0 ==
      if n == |turns| then Pending
      else if RecordOf(c, msg, error, turns[n]).Some? && turns[n].acknowledged then Acknowledged
      else Aborted
    decreases |turns|
  {
    hide RecordOf;
    if turns == [] || !DlqRepeats(c, msg, error, turns[0]) {
      n := 0;
    } else {
      var r := RecordOf(c, msg, error, turns[0]);
      var sent := if r.Some? then log + [Sent(r.value, turns[0].acknowledged)] else log;
      var kept := sent + When(!retaining, Retained);
      var m := FirstDecisiveDlqTurn(c, msg, error, turns[1..], attempt + 1, true,
                                    kept + [Waited(DlqWait, Calc(c.retry, attempt))]);
      n := m + 1;
      assert forall i | 0 <= i < n :: turns[..n][i] == if i == 0 then turns[0] else turns[1..][..m][i - 1];
    }
  }

  // A handler turn that is to be repeated, after so many ordinary failures.
  predicate Repeats(c: Consumer, ordinary: nat, t: Turn) {
    !Settles(t.result) && !t.canceled && (IsOrdinaryTurn(t) ==> ordinary < c.retry.maxRetries)
  }

  predicate IsOrdinaryTurn(t: Turn) {
    t.result.Some? && DispositionOf(t.result.value) == Retry
  }

  function OrdinaryTurns(turns: seq<Turn>): nat {
    if turns == [] then 0 else (if IsOrdinaryTurn(turns[0]) then 1 else 0) + OrdinaryTurns(turns[1..])
  }

  // Every turn is to be repeated, starting after so many ordinary failures.
  predicate RepeatsAll(c: Consumer, ordinary: nat, turns: seq<Turn>)
    decreases |turns|
  {
    turns != [] ==>
      Repeats(c, ordinary, turns[0]) && RepeatsAll(c, ordinary + if IsOrdinaryTurn(turns[0]) then 1 else 0, turns[1..])
  }

  // How the loop ends on a decisive turn.
  predicate EndsOn(c: Consumer, msg: Message, dlq: seq<DlqTurn>, ordinary: nat, t: Turn, ret: Return) {
    if Settles(t.result) then ret == Commit(None)
    else if IsOrdinaryTurn(t) && ordinary >= c.retry.maxRetries then ret == Exhausted(c, msg, t.result.value, dlq, []).0
    else ret == Stop
  }

  // What happened before does not change how the dead-letter loop ends.
  lemma ExhaustedIgnoresLog(c: Consumer, msg: Message, error: Error, dlq: seq<DlqTurn>, log: seq<Effect>)
    ensures Exhausted(c, msg, error, dlq, log).0 == Exhausted(c, msg, error, dlq, []).0
  {
    StatusIgnoresLog(c, msg, error, dlq, 0, false, log, []);
  }

  lemma {:induction false} StatusIgnoresLog(c: Consumer, msg: Message, error: Error, dlq: seq<DlqTurn>, attempt: nat,
                                            retaining: bool, log: seq<Effect>, log': seq<Effect>)
    ensures SendUntilSuccess(c, msg, error, dlq, attempt, retaining, log).0
         == SendUntilSuccess(c, msg, error, dlq, attempt, retaining, log').0
  {
    hide SendUntilSuccess;
    var n := FirstDecisiveDlqTurn(c, msg, error, dlq, attempt, retaining, log);
    var n' := FirstDecisiveDlqTurn(c, msg, error, dlq, attempt, retaining, log');
  }

  /** The retry loop repeats until the first turn that settles the message, is cancelled, or is one ordinary failure too
      many, and ends as that turn says; held failures repeat for ever. */
  lemma {:induction false} FirstDecisiveTurn(c: Consumer, msg: Message, turns: seq<Turn>, dlq: seq<DlqTurn>, normal: nat,
                                             held: nat, retaining: bool, log: seq<Effect>) returns (n: nat)
    ensures n <= |turns| && RepeatsAll(c, normal, turns[..n])
    ensures
      var ret := Handle(c, msg, turns, dlq, normal, held, retaining, log).0;
      if n == |turns| then ret == Running
      else
        var ordinary := normal + OrdinaryTurns(turns[..n]);
        !Repeats(c, ordinary, turns[n]) && EndsOn(c, msg, dlq, ordinary, turns[n], ret)
    decreases |turns|
  {
    hide Exhausted;
    if turns == [] {
      n := 0;
    } else if !Repeats(c, normal, turns[0]) {
      n := 0;
      if turns[0].result.Some? {
        ExhaustedIgnoresLog(c, msg, turns[0].result.value, dlq, log + [Handled(turns[0].result)] + When(retaining, Released));
      }
    } else {
      var m := RestDecides(c, msg, turns, dlq, normal, held, retaining, log);
      n := m + 1;
      assert turns[..n][1..] == turns[1..][..m] && turns[..n][0] == turns[0];
    }
  }

  // The turns after one that is repeated.
  lemma {:induction false} RestDecides(c: Consumer, msg: Message, turns: seq<Turn>, dlq: seq<DlqTurn>, normal: nat, held: nat,
                                       retaining: bool, log: seq<Effect>) returns (m: nat)
    requires turns != [] && Repeats(c, normal, turns[0])
    ensures
      var rest, now := turns[1..], normal + if IsOrdinaryTurn(turns[0]) then 1 else 0;
      var ret := Handle(c, msg, turns, dlq, normal, held, retaining, log).0;
      && m <= |rest| && RepeatsAll(c, now, rest[..m])
      && if m == |rest| then ret == Running
         else
           var ordinary := now + OrdinaryTurns(rest[..m]);
           !Repeats(c, ordinary, rest[m]) && EndsOn(c, msg, dlq, ordinary, rest[m], ret)
    decreases |turns|, 0
  {
    hide Exhausted, RepeatsAll, EndsOn, OrdinaryTurns;
    var seen := log + [Handled(turns[0].result)];
    if IsOrdinaryTurn(turns[0]) {
      m := FirstDecisiveTurn(c, msg, turns[1..], dlq, normal + 1, held, false,
                             seen + When(retaining, Released) + [Waited(OrdinaryWait, Calc(c.retry, normal))]);
    } else {
      m := FirstDecisiveTurn(c, msg, turns[1..], dlq, normal, held + 1, true,
                             seen + When(!retaining, Retained) + [Waited(HeldWait, Calc(c.retry, held))]);
    }
  }
}
