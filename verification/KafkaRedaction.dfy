/**
 What is sent to the dead-letter topic, acknowledged or not: the message's own bytes, or what the
 redactors answered for them, with the error that exhausted the message.
 */
module KafkaRedaction {
  import opened Backoff
  import opened KafkaErrors
  import opened KafkaRetry
  import opened KafkaRetryRuns
  import opened Wrappers

  // A record of turn t: per part the redactor's answer if there is a redactor, else the message's own.
  predicate Carries(c: Consumer, msg: Message, error: Error, t: DlqTurn, e: Effect)
    requires e.Sent?
  {
    && (if c.redactsValue then t.value.Gave? && t.value.validJson && e.record.value == t.value.bytes
        else e.record.value == msg.value)
    && (if c.redactsKey then t.key.Gave? && e.record.key == t.key.bytes else e.record.key == msg.key)
    && e.record.error == error && e.record.retryCount == c.retry.maxRetries
    && e.acknowledged == t.acknowledged
  }

  ghost predicate MadeBy(c: Consumer, msg: Message, error: Error, all: seq<DlqTurn>, e: Effect) {
    e.Sent? ==> exists t | t in all :: Carries(c, msg, error, t, e)
  }

  ghost predicate AllMade(c: Consumer, msg: Message, error: Error, all: seq<DlqTurn>, log: seq<Effect>) {
    forall e | e in log :: MadeBy(c, msg, error, all, e)
  }

  lemma AllMadeSnoc(c: Consumer, msg: Message, error: Error, all: seq<DlqTurn>, log: seq<Effect>, e: Effect)
    requires AllMade(c, msg, error, all, log) && MadeBy(c, msg, error, all, e)
    ensures AllMade(c, msg, error, all, log + [e])
  {
    hide MadeBy;
    forall x | x in log + [e]
      ensures MadeBy(c, msg, error, all, x)
    {
      assert x in log || x == e;
    }
  }

  lemma RecordIsMade(c: Consumer, msg: Message, error: Error, t: DlqTurn, all: seq<DlqTurn>)
    requires t in all && RecordOf(c, msg, error, t).Some?
    ensures MadeBy(c, msg, error, all, Sent(RecordOf(c, msg, error, t).value, t.acknowledged))
  {
    assert Carries(c, msg, error, t, Sent(RecordOf(c, msg, error, t).value, t.acknowledged));
  }

  // The log grows by an effect that is no handler call: same handler results, all records still made.
  ghost predicate Extends(c: Consumer, msg: Message, error: Error, all: seq<DlqTurn>, log: seq<Effect>, log': seq<Effect>) {
    AllMade(c, msg, error, all, log) ==> AllMade(c, msg, error, all, log') && Results(log') == Results(log)
  }

  lemma ExtendsSnoc(c: Consumer, msg: Message, error: Error, all: seq<DlqTurn>, log: seq<Effect>, log': seq<Effect>, e: Effect)
    requires Extends(c, msg, error, all, log, log') && !e.Handled? && MadeBy(c, msg, error, all, e)
    ensures Extends(c, msg, error, all, log, log' + [e])
  {
    hide AllMade, MadeBy, Results, Gauge, Ordinaries, Acknowledgements, Cancellations, Delays;
    if AllMade(c, msg, error, all, log) {
      AllMadeSnoc(c, msg, error, all, log', e);
      Snoc(log', e, DlqWait);
      assert Results(log') + [] == Results(log');
    }
  }

  lemma ExtendsWhen(c: Consumer, msg: Message, error: Error, all: seq<DlqTurn>, log: seq<Effect>, log': seq<Effect>, b: bool,
                    e: Effect)
    requires Extends(c, msg, error, all, log, log') && !e.Handled? && !e.Sent?
    ensures Extends(c, msg, error, all, log, log' + When(b, e))
  {
    hide Extends;
    if b {
      ExtendsSnoc(c, msg, error, all, log, log', e);
    } else {
      assert log' + When(b, e) == log';
    }
  }

  lemma {:induction false} SendExtends(c: Consumer, msg: Message, error: Error, turns: seq<DlqTurn>, all: seq<DlqTurn>,
                                       attempt: nat, retaining: bool, log: seq<Effect>, log': seq<Effect>)
    requires Extends(c, msg, error, all, log, log') && forall t | t in turns :: t in all
    ensures Extends(c, msg, error, all, log, SendUntilSuccess(c, msg, error, turns, attempt, retaining, log').1)
    decreases |turns|
  {
    hide Extends, RecordOf, When;
    if turns == [] {
    } else {
      var t, r := turns[0], RecordOf(c, msg, error, turns[0]);
      var sent := if r.Some? then log' + [Sent(r.value, t.acknowledged)] else log';
      if r.Some? {
        RecordIsMade(c, msg, error, t, all);
        ExtendsSnoc(c, msg, error, all, log, log', Sent(r.value, t.acknowledged));
      }
      ExtendsWhen(c, msg, error, all, log, sent, retaining, Released);
      ExtendsWhen(c, msg, error, all, log, sent, !retaining, Retained);
      var kept, wait := sent + When(!retaining, Retained), Waited(DlqWait, Calc(c.retry, attempt));
      ExtendsSnoc(c, msg, error, all, log, kept, Canceled);
      ExtendsSnoc(c, msg, error, all, log, kept + [Canceled], Released);
      ExtendsSnoc(c, msg, error, all, log, kept, wait);
      SendExtends(c, msg, error, turns[1..], all, attempt + 1, true, log, kept + [wait]);
    }
  }

  ghost predicate NothingSent(log: seq<Effect>) {
    forall e | e in log :: !e.Sent?
  }

  lemma NothingSentSnoc(log: seq<Effect>, b: bool, e: Effect)
    requires NothingSent(log) && !e.Sent?
    ensures NothingSent(log + [e]) && NothingSent(log + When(b, e))
  {
  }

  // Nothing was sent, or all of it was made for the last error the handler returned.
  ghost predicate SentForLast(c: Consumer, msg: Message, dlq: seq<DlqTurn>, log: seq<Effect>) {
    || NothingSent(log)
    || (Results(log) != [] && Results(log)[|Results(log)| - 1].Some?
        && AllMade(c, msg, Results(log)[|Results(log)| - 1].value, dlq, log))
  }

  lemma ExhaustedSends(c: Consumer, msg: Message, error: Error, dlq: seq<DlqTurn>, log: seq<Effect>, freed: seq<Effect>, b: bool)
    requires NothingSent(log) && freed == log + [Handled(Some(error))] + When(b, Released)
    ensures SentForLast(c, msg, dlq, Exhausted(c, msg, error, dlq, freed).1)
  {
    hide SendUntilSuccess, Results, Gauge, Ordinaries, Acknowledgements, Cancellations, Delays;
    NothingSentSnoc(log, b, Handled(Some(error)));
    NothingSentSnoc(log + [Handled(Some(error))], b, Released);
    Snoc(log, Handled(Some(error)), DlqWait);
    Snoc(log + [Handled(Some(error))], Released, DlqWait);
    assert Results(log + [Handled(Some(error))]) + [] == Results(log + [Handled(Some(error))]);
    assert b || log + [Handled(Some(error))] + When(b, Released) == log + [Handled(Some(error))];
    SendExtends(c, msg, error, dlq, dlq, 0, false, freed, freed);
  }

  lemma {:induction false} HandleSends(c: Consumer, msg: Message, turns: seq<Turn>, dlq: seq<DlqTurn>, normal: nat, held: nat,
                                       retaining: bool, log: seq<Effect>)
    requires NothingSent(log)
    ensures SentForLast(c, msg, dlq, Handle(c, msg, turns, dlq, normal, held, retaining, log).1)
    decreases |turns|
  {
    hide NothingSent, Exhausted, When, DispositionOf, AllMade, Results;
    if turns == [] {
    } else {
      var seen := log + [Handled(turns[0].result)];
      NothingSentSnoc(log, true, Handled(turns[0].result));
      NothingSentSnoc(seen, !retaining, Retained);
      NothingSentSnoc(seen, retaining, Released);
      var kept, freed := seen + When(!retaining, Retained), seen + When(retaining, Released);
      NothingSentSnoc(kept, true, Canceled);
      NothingSentSnoc(kept + [Canceled], true, Released);
      NothingSentSnoc(freed, true, Canceled);
      if turns[0].result.Some? {
        ExhaustedSends(c, msg, turns[0].result.value, dlq, log, freed, retaining);
      }
      var hold, wait := Waited(HeldWait, Calc(c.retry, held)), Waited(OrdinaryWait, Calc(c.retry, normal));
      NothingSentSnoc(kept, true, hold);
      NothingSentSnoc(freed, true, wait);
      HandleSends(c, msg, turns[1..], dlq, normal, held + 1, true, kept + [hold]);
      HandleSends(c, msg, turns[1..], dlq, normal + 1, held, false, freed + [wait]);
    }
  }

  /** Every record sent in any run, acknowledged or not, carries per part what that part's redactor answered in one turn,
      or the message's own bytes where there is no redactor, and the last error the handler returned. */
  lemma {:induction false} SentIsRedacted(c: Consumer, msg: Message, turns: seq<Turn>, dlq: seq<DlqTurn>, p: nat)
    requires p < |HandleMessage(c, msg, turns, dlq).1| && HandleMessage(c, msg, turns, dlq).1[p].Sent?
    ensures
      var log := HandleMessage(c, msg, turns, dlq).1;
      && Results(log) != [] && Results(log)[|Results(log)| - 1].Some?
      && exists t | t in dlq :: Carries(c, msg, Results(log)[|Results(log)| - 1].value, t, log[p])
  {
    hide Handle, Results, Carries;
    HandleSends(c, msg, turns, dlq, 0, 0, false, []);
    var log := HandleMessage(c, msg, turns, dlq).1;
    assert log[p] in log;
    assert MadeBy(c, msg, Results(log)[|Results(log)| - 1].value, dlq, log[p]);
  }
}
