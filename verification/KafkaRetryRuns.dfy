/** What every run of the retry loop, complete or still going, leaves in its log. */
module KafkaRetryRuns {
  import opened Wrappers
  import opened Backoff
  import opened KafkaErrors
  import opened KafkaRetry

  // The retained-offset gauge after the log.
  function Gauge(log: seq<Effect>): int {
    if log == [] then 0
    else Gauge(log[..|log| - 1]) + match log[|log| - 1] case Retained => 1 case Released => -1 case _ => 0
  }

  // The gauge was 0 or 1 after every step of the log.
  ghost predicate Steady(log: seq<Effect>) {
    forall p | 0 <= p <= |log| :: 0 <= Gauge(log[..p]) <= 1
  }

  // Handler failures that are neither held nor skipped.
  function Ordinaries(log: seq<Effect>): nat {
    if log == [] then 0
    else Ordinaries(log[..|log| - 1]) + if IsOrdinary(log[|log| - 1]) then 1 else 0
  }

  predicate IsOrdinary(e: Effect) {
    e.Handled? && e.result.Some? && DispositionOf(e.result.value) == Retry
  }

  // The dead-letter records the broker acknowledged, in order.
  function Acknowledgements(log: seq<Effect>): seq<Record> {
    if log == [] then []
    else
      var e := log[|log| - 1];
      Acknowledgements(log[..|log| - 1]) + if e.Sent? && e.acknowledged then [e.record] else []
  }

  function Cancellations(log: seq<Effect>): nat {
    if log == [] then 0 else Cancellations(log[..|log| - 1]) + if log[|log| - 1].Canceled? then 1 else 0
  }

  // The delays waited out for one reason, in order.
  function Delays(log: seq<Effect>, kind: Kind): seq<int> {
    if log == [] then []
    else
      var e := log[|log| - 1];
      Delays(log[..|log| - 1], kind) + if e.Waited? && e.kind == kind then [e.delay] else []
  }

  // What the handler calls returned, in order.
  function Results(log: seq<Effect>): seq<Option<Error>> {
    if log == [] then []
    else Results(log[..|log| - 1]) + if log[|log| - 1].Handled? then [log[|log| - 1].result] else []
  }

  // calcBackoff(0), ..., calcBackoff(n - 1)
  function Schedule(rc: RetryConfig, n: nat): seq<int> {
    if n == 0 then [] else Schedule(rc, n - 1) + [Calc(rc, n - 1)]
  }

  lemma Snoc(log: seq<Effect>, e: Effect, kind: Kind)
    ensures Gauge(log + [e]) == Gauge(log) + match e case Retained => 1 case Released => -1 case _ => 0
    ensures Ordinaries(log + [e]) == Ordinaries(log) + if IsOrdinary(e) then 1 else 0
    ensures Acknowledgements(log + [e]) == Acknowledgements(log) + if e.Sent? && e.acknowledged then [e.record] else []
    ensures Cancellations(log + [e]) == Cancellations(log) + if e.Canceled? then 1 else 0
    ensures Delays(log + [e], kind) == Delays(log, kind) + if e.Waited? && e.kind == kind then [e.delay] else []
    ensures Results(log + [e]) == Results(log) + if e.Handled? then [e.result] else []
  {
    assert (log + [e])[..|log|] == log;
  }

  lemma SteadySnoc(log: seq<Effect>, e: Effect)
    requires Steady(log) && 0 <= Gauge(log + [e]) <= 1
    ensures Steady(log + [e])
  {
    var log' := log + [e];
    forall p | 0 <= p <= |log'| ensures 0 <= Gauge(log'[..p]) <= 1 {
      if p <= |log| { assert log'[..p] == log[..p]; } else { assert log'[..p] == log'; }
    }
  }

  // Everything the proofs below track about a log.
  datatype Tally = Tally(gauge: int, ordinaries: nat, acknowledged: seq<Record>, canceled: nat, results: seq<Option<Error>>,
                         ordinaryDelays: seq<int>, heldDelays: seq<int>, dlqDelays: seq<int>)

  function TallyOf(log: seq<Effect>): Tally {
    Tally(Gauge(log), Ordinaries(log), Acknowledgements(log), Cancellations(log), Results(log),
          Delays(log, OrdinaryWait), Delays(log, HeldWait), Delays(log, DlqWait))
  }

  function Count(t: Tally, e: Effect): Tally {
    match e
    case Handled(r) => t.(results := t.results + [r], ordinaries := t.ordinaries + if IsOrdinary(e) then 1 else 0)
    case Retained => t.(gauge := t.gauge + 1)
    case Released => t.(gauge := t.gauge - 1)
    case Canceled => t.(canceled := t.canceled + 1)
    case Sent(r, acknowledged) => if acknowledged then t.(acknowledged := t.acknowledged + [r]) else t
    case Waited(OrdinaryWait, d) => t.(ordinaryDelays := t.ordinaryDelays + [d])
    case Waited(HeldWait, d) => t.(heldDelays := t.heldDelays + [d])
    case Waited(DlqWait, d) => t.(dlqDelays := t.dlqDelays + [d])
  }

  // A log that went well so far and tallies to t.
  ghost predicate Good(log: seq<Effect>, t: Tally) {
    Steady(log) && TallyOf(log) == t
  }

  lemma TallySnoc(log: seq<Effect>, e: Effect)
    ensures TallyOf(log + [e]) == Count(TallyOf(log), e)
  {
    hide Gauge, Ordinaries, Acknowledgements, Cancellations, Delays, Results, DispositionOf;
    Snoc(log, e, OrdinaryWait);
    Snoc(log, e, HeldWait);
    Snoc(log, e, DlqWait);
    assert Acknowledgements(log) + [] == Acknowledgements(log) && Results(log) + [] == Results(log);
    assert forall k :: Delays(log, k) + [] == Delays(log, k);
  }

  lemma Step(log: seq<Effect>, t: Tally, e: Effect)
    requires Good(log, t) && 0 <= Count(t, e).gauge <= 1
    ensures Good(log + [e], Count(t, e))
  {
    TallySnoc(log, e);
    SteadySnoc(log, e);
  }

  lemma StepWhen(log: seq<Effect>, t: Tally, b: bool, e: Effect)
    requires Good(log, t) && (b ==> 0 <= Count(t, e).gauge <= 1)
    ensures Good(log + When(b, e), if b then Count(t, e) else t)
  {
    if b { Step(log, t, e); } else { assert log + [] == log; }
  }

  // The dead-letter loop between two turns.
  predicate DlqState(c: Consumer, t: Tally, attempt: nat, retaining: bool) {
    && t.gauge == (if retaining then 1 else 0)
    && t.acknowledged == [] && t.canceled == 0
    && t.dlqDelays == Schedule(c.retry, attempt)
  }

  // The tally t' the dead-letter loop may leave when started from t.
  ghost predicate DlqOutcome(c: Consumer, msg: Message, error: Error, turns: seq<DlqTurn>, t: Tally, status: Status, t': Tally) {
    && t' == t.(gauge := t'.gauge, acknowledged := t'.acknowledged, canceled := t'.canceled, dlqDelays := t'.dlqDelays)
    && t'.dlqDelays == Schedule(c.retry, |t'.dlqDelays|)
    && match status
       case Acknowledged =>
         && t'.gauge == 0 && t'.canceled == 0 && |t'.acknowledged| == 1
         && SomeTurnMade(c, msg, error, turns, t'.acknowledged[0])
       case Aborted => t'.gauge == 0 && t'.canceled == 1 && t'.acknowledged == []
       case Pending => t'.canceled == 0 && t'.acknowledged == []
  }

  // The record comes out of the redactors' answers in some turn.
  ghost predicate SomeTurnMade(c: Consumer, msg: Message, error: Error, turns: seq<DlqTurn>, r: Record) {
    exists turn | turn in turns :: RecordOf(c, msg, error, turn) == Some(r)
  }

  lemma {:induction false} ScheduleLength(rc: RetryConfig, n: nat)
    ensures |Schedule(rc, n)| == n
  {
    if n == 0 {
    } else {
      ScheduleLength(rc, n - 1);
    }
  }

  function Offered(c: Consumer, msg: Message, error: Error, turn: DlqTurn, log: seq<Effect>): seq<Effect> {
    var r := RecordOf(c, msg, error, turn);
    if r.Some? then log + [Sent(r.value, turn.acknowledged)] else log
  }

  lemma AcknowledgedTurn(c: Consumer, msg: Message, error: Error, turn: DlqTurn, retaining: bool, log: seq<Effect>, t: Tally)
    requires Good(log, t) && t.gauge == (if retaining then 1 else 0)
    requires RecordOf(c, msg, error, turn).Some? && turn.acknowledged
    ensures Good(Offered(c, msg, error, turn, log) + When(retaining, Released),
                 t.(gauge := 0, acknowledged := t.acknowledged + [RecordOf(c, msg, error, turn).value]))
  {
    var e := Sent(RecordOf(c, msg, error, turn).value, true);
    Step(log, t, e);
    StepWhen(log + [e], Count(t, e), retaining, Released);
  }

  lemma FailedTurn(c: Consumer, msg: Message, error: Error, turn: DlqTurn, retaining: bool, log: seq<Effect>, t: Tally)
    requires Good(log, t) && t.gauge == (if retaining then 1 else 0)
    requires RecordOf(c, msg, error, turn).None? || !turn.acknowledged
    ensures Good(Offered(c, msg, error, turn, log) + When(!retaining, Retained), t.(gauge := 1))
  {
    var r := RecordOf(c, msg, error, turn);
    if r.Some? { Step(log, t, Sent(r.value, false)); }
    StepWhen(Offered(c, msg, error, turn, log), t, !retaining, Retained);
  }

  lemma CanceledTurn(log: seq<Effect>, t: Tally)
    requires Good(log, t) && t.gauge == 1
    ensures Good(log + [Canceled] + [Released], t.(gauge := 0, canceled := t.canceled + 1))
  {
    Step(log, t, Canceled);
    Step(log + [Canceled], Count(t, Canceled), Released);
  }

  lemma OutcomeLifts(c: Consumer, msg: Message, error: Error, turns: seq<DlqTurn>, t: Tally, t1: Tally, status: Status, t': Tally)
    requires turns != [] && DlqOutcome(c, msg, error, turns[1..], t1, status, t')
    requires t1 == t.(gauge := t1.gauge, dlqDelays := t1.dlqDelays)
    ensures DlqOutcome(c, msg, error, turns, t, status, t')
  {
    if status.Acknowledged? {
      var turn :| turn in turns[1..] && RecordOf(c, msg, error, turn) == Some(t'.acknowledged[0]);
      assert turn in turns;
    }
  }

  lemma {:induction false} SendIsGood(c: Consumer, msg: Message, error: Error, turns: seq<DlqTurn>, attempt: nat,
                                      retaining: bool, log: seq<Effect>, t: Tally)
    requires Good(log, t) && DlqState(c, t, attempt, retaining)
    ensures var (status, log') := SendUntilSuccess(c, msg, error, turns, attempt, retaining, log);
      Steady(log') && DlqOutcome(c, msg, error, turns, t, status, TallyOf(log'))
    decreases |turns|
  {
    hide Good, Steady, TallyOf;
    ScheduleLength(c.retry, attempt);
    GoodMeans();
    if turns == [] {
    } else {
      var turn, r := turns[0], RecordOf(c, msg, error, turns[0]);
      if r.Some? && turn.acknowledged {
        AcknowledgedTurn(c, msg, error, turn, retaining, log, t);
      } else {
        FailedTurn(c, msg, error, turn, retaining, log, t);
        var kept, tKept := Offered(c, msg, error, turn, log) + When(!retaining, Retained), t.(gauge := 1);
        if turn.canceled {
          CanceledTurn(kept, tKept);
        } else {
          var wait := Waited(DlqWait, Calc(c.retry, attempt));
          Step(kept, tKept, wait);
          SendIsGood(c, msg, error, turns[1..], attempt + 1, true, kept + [wait], Count(tKept, wait));
          var (status, log') := SendUntilSuccess(c, msg, error, turns, attempt, retaining, log);
          OutcomeLifts(c, msg, error, turns, t, Count(tKept, wait), status, TallyOf(log'));
        }
      }
    }
  }

  lemma GoodMeans()
    ensures forall log, t {:trigger Good(log, t)} :: Good(log, t) <==> Steady(log) && TallyOf(log) == t
  {
  }

  // The retry loop between two turns.
  predicate LoopState(c: Consumer, t: Tally, normal: nat, held: nat, retaining: bool) {
    && t.gauge == (if retaining then 1 else 0)
    && t.ordinaries == normal <= c.retry.maxRetries
    && t.acknowledged == [] && t.canceled == 0
    && t.ordinaryDelays == Schedule(c.retry, normal)
    && t.heldDelays == Schedule(c.retry, held)
    && t.dlqDelays == []
  }

  // The k-th retry of each kind waited calcBackoff(k), whatever happened in between.
  predicate OnSchedule(rc: RetryConfig, t: Tally) {
    && t.ordinaryDelays == Schedule(rc, |t.ordinaryDelays|)
    && t.heldDelays == Schedule(rc, |t.heldDelays|)
    && t.dlqDelays == Schedule(rc, |t.dlqDelays|)
  }

  // The handler was called for the turns in order.
  predicate InOrder(before: seq<Option<Error>>, turns: seq<Turn>, after: seq<Option<Error>>) {
    && |before| <= |after| <= |before| + |turns|
    && before == after[..|before|]
    && forall i | |before| <= i < |after| :: after[i] == turns[i - |before|].result
  }

  ghost predicate Outcome(c: Consumer, msg: Message, dlq: seq<DlqTurn>, ret: Return, t: Tally) {
    && OnSchedule(c.retry, t)
    && match ret
       case Commit(Some(e)) =>
         && t.gauge == 0 && t.canceled == 0
         && t.ordinaries == c.retry.maxRetries + 1 && |t.ordinaryDelays| == c.retry.maxRetries
         && t.results != [] && t.results[|t.results| - 1] == Some(e) && DispositionOf(e) == Retry
         && |t.acknowledged| == (if c.dlqEnabled then 1 else 0)
         && (c.dlqEnabled ==> SomeTurnMade(c, msg, e, dlq, t.acknowledged[0]))
       case Commit(None) =>
         && t.gauge == 0 && t.canceled == 0
         && t.ordinaries <= c.retry.maxRetries && t.acknowledged == []
         && t.results != [] && Settles(t.results[|t.results| - 1])
       case Stop => t.gauge == 0 && t.canceled == 1 && t.acknowledged == []
       case Running => t.canceled == 0 && t.acknowledged == []
  }

  // A handler result that ends the message without exhausting it: success, or a skipped message.
  predicate Settles(r: Option<Error>) {
    r.None? || DispositionOf(r.value) == Skip
  }

  lemma ExhaustedIsGood(c: Consumer, msg: Message, e: Error, dlq: seq<DlqTurn>, log: seq<Effect>, t: Tally)
    requires Good(log, t) && DispositionOf(e) == Retry
    requires t.gauge == 0 && t.acknowledged == [] && t.canceled == 0 && t.dlqDelays == []
    requires t.ordinaries == c.retry.maxRetries + 1 && |t.ordinaryDelays| == c.retry.maxRetries
    requires OnSchedule(c.retry, t) && t.results != [] && t.results[|t.results| - 1] == Some(e)
    ensures var (ret, log') := Exhausted(c, msg, e, dlq, log);
      && Steady(log') && Outcome(c, msg, dlq, ret, TallyOf(log'))
      && TallyOf(log').results == t.results
  {
    hide Good, Steady, TallyOf;
    GoodMeans();
    SendIsGood(c, msg, e, dlq, 0, false, log, t);
  }

  lemma TurnBegins(log: seq<Effect>, t: Tally, result: Option<Error>)
    requires Good(log, t) && 0 <= t.gauge <= 1
    ensures Good(log + [Handled(result)], Count(t, Handled(result)))
    ensures Good(log + [Handled(result)] + When(t.gauge == 0, Retained), Count(t, Handled(result)).(gauge := 1))
    ensures Good(log + [Handled(result)] + When(t.gauge == 1, Released), Count(t, Handled(result)).(gauge := 0))
  {
    var seen, t1 := log + [Handled(result)], Count(t, Handled(result));
    Step(log, t, Handled(result));
    StepWhen(seen, t1, t.gauge == 0, Retained);
    StepWhen(seen, t1, t.gauge == 1, Released);
  }

  lemma InOrderExtends(before: seq<Option<Error>>, turns: seq<Turn>, after: seq<Option<Error>>)
    requires turns != [] && InOrder(before + [turns[0].result], turns[1..], after)
    ensures InOrder(before, turns, after)
  {
    assert after[..|before|] == after[..|before| + 1][..|before|];
    assert after[|before|] == after[..|before| + 1][|before|];
  }

  // A turn after which the loop goes on.
  predicate GoesOn(c: Consumer, normal: nat, t: Turn) {
    && t.result.Some? && !t.canceled
    && (DispositionOf(t.result.value) == Hold || (DispositionOf(t.result.value) == Retry && normal < c.retry.maxRetries))
  }

  lemma HoldTurn(c: Consumer, log: seq<Effect>, t: Tally, normal: nat, held: nat, retaining: bool, e: Error) returns (t': Tally)
    requires Good(log, t) && LoopState(c, t, normal, held, retaining) && DispositionOf(e) == Hold
    ensures Good(log + [Handled(Some(e))] + When(!retaining, Retained) + [Waited(HeldWait, Calc(c.retry, held))], t')
    ensures LoopState(c, t', normal, held + 1, true) && t'.results == t.results + [Some(e)]
  {
    hide Good, DispositionOf;
    TurnBegins(log, t, Some(e));
    var t1 := Count(t, Handled(Some(e))).(gauge := 1);
    var wait := Waited(HeldWait, Calc(c.retry, held));
    t' := Count(t1, wait);
    Step(log + [Handled(Some(e))] + When(!retaining, Retained), t1, wait);
  }

  lemma OrdinaryTurn(c: Consumer, log: seq<Effect>, t: Tally, normal: nat, held: nat, retaining: bool, e: Error)
    returns (t': Tally)
    requires Good(log, t) && LoopState(c, t, normal, held, retaining)
    requires DispositionOf(e) == Retry && normal < c.retry.maxRetries
    ensures Good(log + [Handled(Some(e))] + When(retaining, Released) + [Waited(OrdinaryWait, Calc(c.retry, normal))], t')
    ensures LoopState(c, t', normal + 1, held, false) && t'.results == t.results + [Some(e)]
  {
    hide Good, DispositionOf;
    TurnBegins(log, t, Some(e));
    var t1 := Count(t, Handled(Some(e))).(gauge := 0);
    var wait := Waited(OrdinaryWait, Calc(c.retry, normal));
    t' := Count(t1, wait);
    Step(log + [Handled(Some(e))] + When(retaining, Released), t1, wait);
  }

  lemma EndingTurn(c: Consumer, msg: Message, turns: seq<Turn>, dlq: seq<DlqTurn>, normal: nat, held: nat, retaining: bool,
                   log: seq<Effect>, t: Tally)
    requires Good(log, t) && LoopState(c, t, normal, held, retaining) && turns != [] && !GoesOn(c, normal, turns[0])
    ensures var (ret, log') := Handle(c, msg, turns, dlq, normal, held, retaining, log);
      && Steady(log') && Outcome(c, msg, dlq, ret, TallyOf(log'))
      && InOrder(t.results, turns, TallyOf(log').results)
  {
    hide Good, Steady, TallyOf, Exhausted;
    GoodMeans();
    ScheduleLength(c.retry, normal);
    ScheduleLength(c.retry, held);
    var turn := turns[0];
    var seen, t1 := log + [Handled(turn.result)], Count(t, Handled(turn.result));
    var kept, freed := seen + When(!retaining, Retained), seen + When(retaining, Released);
    TurnBegins(log, t, turn.result);
    assert Good(kept, t1.(gauge := 1)) && Good(freed, t1.(gauge := 0));
    if turn.result.Some? && DispositionOf(turn.result.value) == Hold {
      CanceledTurn(kept, t1.(gauge := 1));
    } else if turn.result.Some? && DispositionOf(turn.result.value) == Retry {
      if normal >= c.retry.maxRetries {
        ExhaustedIsGood(c, msg, turn.result.value, dlq, freed, t1.(gauge := 0));
      } else {
        Step(freed, t1.(gauge := 0), Canceled);
      }
    }
  }

  lemma NoTurns(c: Consumer, msg: Message, dlq: seq<DlqTurn>, normal: nat, held: nat, retaining: bool, log: seq<Effect>,
                t: Tally)
    requires Good(log, t) && LoopState(c, t, normal, held, retaining)
    ensures Steady(log) && Outcome(c, msg, dlq, Running, TallyOf(log)) && InOrder(t.results, [], TallyOf(log).results)
  {
    hide Steady, TallyOf;
    ScheduleLength(c.retry, normal);
    ScheduleLength(c.retry, held);
  }

  lemma {:induction false} HandleIsGood(c: Consumer, msg: Message, turns: seq<Turn>, dlq: seq<DlqTurn>, normal: nat,
                                        held: nat, retaining: bool, log: seq<Effect>, t: Tally)
    requires Good(log, t) && LoopState(c, t, normal, held, retaining)
    ensures var (ret, log') := Handle(c, msg, turns, dlq, normal, held, retaining, log);
      && Steady(log') && Outcome(c, msg, dlq, ret, TallyOf(log'))
      && InOrder(t.results, turns, TallyOf(log').results)
    decreases |turns|
  {
    hide Good, Steady, TallyOf, LoopState, Outcome, InOrder, Exhausted, When;
    if turns == [] {
      NoTurns(c, msg, dlq, normal, held, retaining, log, t);
    } else if !GoesOn(c, normal, turns[0]) {
      EndingTurn(c, msg, turns, dlq, normal, held, retaining, log, t);
    } else {
      var e := turns[0].result.value;
      var seen := log + [Handled(turns[0].result)];
      var (ret, log') := Handle(c, msg, turns, dlq, normal, held, retaining, log);
      if DispositionOf(e) == Hold {
        var t' := HoldTurn(c, log, t, normal, held, retaining, e);
        HandleIsGood(c, msg, turns[1..], dlq, normal, held + 1, true,
                     seen + When(!retaining, Retained) + [Waited(HeldWait, Calc(c.retry, held))], t');
      } else {
        var t' := OrdinaryTurn(c, log, t, normal, held, retaining, e);
        HandleIsGood(c, msg, turns[1..], dlq, normal + 1, held, false,
                     seen + When(retaining, Released) + [Waited(OrdinaryWait, Calc(c.retry, normal))], t');
      }
      InOrderExtends(t.results, turns, TallyOf(log').results);
    }
  }

  lemma HandleMessageIsGood(c: Consumer, msg: Message, turns: seq<Turn>, dlq: seq<DlqTurn>)
    requires 0 <= c.retry.maxRetries
    ensures var (ret, log) := HandleMessage(c, msg, turns, dlq);
      && Steady(log) && Outcome(c, msg, dlq, ret, TallyOf(log))
      && InOrder([], turns, Results(log))
  {
    HandleIsGood(c, msg, turns, dlq, 0, 0, false, [], TallyOf([]));
  }

  /** The exact retry budget. For any script: (true, err) is returned exactly when maxRetries + 1 ordinary failures
      were seen and nothing was cancelled, however many held failures are interleaved; err is the last of them; and
      the broker then acknowledged exactly one record, made from the redactors' answers, if dead-lettering is on
      and none if it is off. (true, nil) takes a success or a skipped message, (false, _) an observed
      cancellation, and neither dead-letters anything. */
  lemma RetryBudget(c: Consumer, msg: Message, turns: seq<Turn>, dlq: seq<DlqTurn>)
    requires 0 <= c.retry.maxRetries
    ensures var (ret, log) := HandleMessage(c, msg, turns, dlq);
            var exhausted := ret.Commit? && ret.error.Some?;
      && InOrder([], turns, Results(log))
      && (exhausted <==> !ret.Running? && Cancellations(log) == 0 && Ordinaries(log) == c.retry.maxRetries + 1)
      && (exhausted ==> Results(log) != [] && Results(log)[|Results(log)| - 1] == ret.error)
      && |Acknowledgements(log)| == (if exhausted && c.dlqEnabled then 1 else 0)
      && (exhausted && c.dlqEnabled ==> SomeTurnMade(c, msg, ret.error.value, dlq, Acknowledgements(log)[0]))
      && (ret == Commit(None) ==> Results(log) != [] && Settles(Results(log)[|Results(log)| - 1]))
      && (ret.Stop? <==> Cancellations(log) > 0)
  {
    hide Handle, SendUntilSuccess, Gauge, Ordinaries, Acknowledgements, Cancellations, Delays, Results, Steady;
    HandleMessageIsGood(c, msg, turns, dlq);
    var (ret, log) := HandleMessage(c, msg, turns, dlq);
    match ret
    case Commit(Some(e)) => assert TallyOf(log).ordinaries == c.retry.maxRetries + 1;
    case Commit(None) => assert TallyOf(log).ordinaries <= c.retry.maxRetries;
    case Stop =>
    case Running =>
  }

  /** A message is committed only on a result no link of which is non-committable: on success, or on an error that was
      not held, and with an error to report only if no link of it is an unmarshal error either. */
  lemma {:induction false} HeldIsNeverCommitted(c: Consumer, msg: Message, turns: seq<Turn>, dlq: seq<DlqTurn>)
    requires 0 <= c.retry.maxRetries && HandleMessage(c, msg, turns, dlq).0.Commit?
    ensures
      var (ret, log) := HandleMessage(c, msg, turns, dlq);
      && Results(log) != []
      && var last := Results(log)[|Results(log)| - 1];
         && (last.Some? ==> !HasHold(Chain(last.value)))
         && (last.Some? ==> (ret.error.Some? <==> !HasSkip(Chain(last.value))))
         && (last.None? ==> ret.error.None?)
  {
    hide HandleMessage, Ordinaries, Acknowledgements, Cancellations, Results, Steady, Gauge, Delays;
    HandleMessageIsGood(c, msg, turns, dlq);
    var (ret, log) := HandleMessage(c, msg, turns, dlq);
    var last := Results(log)[|Results(log)| - 1];
    if last.Some? {
      DispositionMeans(last.value);
    }
  }

  /** The retained-offset gauge is 0 or 1 after every single step, across both loops, and back to 0 whenever
      the call returns. */
  lemma GaugeIsBalanced(c: Consumer, msg: Message, turns: seq<Turn>, dlq: seq<DlqTurn>, p: nat)
    requires 0 <= c.retry.maxRetries && p <= |HandleMessage(c, msg, turns, dlq).1|
    ensures 0 <= Gauge(HandleMessage(c, msg, turns, dlq).1[..p]) <= 1
    ensures !HandleMessage(c, msg, turns, dlq).0.Running? ==> Gauge(HandleMessage(c, msg, turns, dlq).1) == 0
  {
    hide Handle, SendUntilSuccess, Gauge, Ordinaries, Acknowledgements, Cancellations, Delays, Results;
    HandleMessageIsGood(c, msg, turns, dlq);
  }

  lemma {:induction false} ScheduleAt(rc: RetryConfig, n: nat, k: nat)
    requires k < n
    ensures |Schedule(rc, n)| == n && Schedule(rc, n)[k] == Calc(rc, k)
  {
    ScheduleLength(rc, n - 1);
    if k < n - 1 { ScheduleAt(rc, n - 1, k); }
  }

  /** The k-th retry of its kind waits calcBackoff(k): ordinary retries, held retries and dead-letter retries count
      separately, and a dead-letter retry counts whichever of its three steps failed. */
  lemma DelaysFollowBackoff(c: Consumer, msg: Message, turns: seq<Turn>, dlq: seq<DlqTurn>, kind: Kind, k: nat)
    requires 0 <= c.retry.maxRetries && k < |Delays(HandleMessage(c, msg, turns, dlq).1, kind)|
    ensures Delays(HandleMessage(c, msg, turns, dlq).1, kind)[k] == Calc(c.retry, k)
  {
    hide Handle, SendUntilSuccess, Gauge, Ordinaries, Acknowledgements, Cancellations, Delays, Results, Steady;
    HandleMessageIsGood(c, msg, turns, dlq);
    ScheduleAt(c.retry, |Delays(HandleMessage(c, msg, turns, dlq).1, kind)|, k);
  }

  lemma {:induction false} SendIgnoresMessage(c: Consumer, msg: Message, msg': Message, error: Error, turns: seq<DlqTurn>,
                                              attempt: nat, retaining: bool, log: seq<Effect>)
    requires c.redactsValue && c.redactsKey
    ensures SendUntilSuccess(c, msg, error, turns, attempt, retaining, log)
         == SendUntilSuccess(c, msg', error, turns, attempt, retaining, log)
    decreases |turns|
  {
    if turns == [] {
    } else {
      var t, r := turns[0], RecordOf(c, msg, error, turns[0]);
      assert r == RecordOf(c, msg', error, t);
      var sent := if r.Some? then log + [Sent(r.value, t.acknowledged)] else log;
      SendIgnoresMessage(c, msg, msg', error, turns[1..], attempt + 1, true,
                         sent + When(!retaining, Retained) + [Waited(DlqWait, Calc(c.retry, attempt))]);
    }
  }

  /** Redaction is fail-closed: with both redactors configured nothing that happens depends on the bytes of the
      message, so no raw key or value can reach the dead-letter topic, in any run. */
  lemma {:induction false} RawBytesNeverLeak(c: Consumer, msg: Message, msg': Message, turns: seq<Turn>, dlq: seq<DlqTurn>,
                                             normal: nat, held: nat, retaining: bool, log: seq<Effect>)
    requires c.redactsValue && c.redactsKey
    ensures Handle(c, msg, turns, dlq, normal, held, retaining, log)
         == Handle(c, msg', turns, dlq, normal, held, retaining, log)
    decreases |turns|
  {
    if turns == [] {
    } else {
      var t := turns[0];
      var seen := log + [Handled(t.result)];
      var kept, freed := seen + When(!retaining, Retained), seen + When(retaining, Released);
      if t.result.Some? {
        SendIgnoresMessage(c, msg, msg', t.result.value, dlq, 0, false, freed);
        RawBytesNeverLeak(c, msg, msg', turns[1..], dlq, normal, held + 1, true,
                          kept + [Waited(HeldWait, Calc(c.retry, held))]);
        RawBytesNeverLeak(c, msg, msg', turns[1..], dlq, normal + 1, held, false,
                          freed + [Waited(OrdinaryWait, Calc(c.retry, normal))]);
      }
    }
  }
}
