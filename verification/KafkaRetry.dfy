/**
 The retry loop around a message handler and the dead-letter loop nested in it. Both run
 for as long as their environment lets them, so the environment is a finite script of what
 handlers, redactors, the dead-letter producer and cancellation do; a script that ends before
 the loop returns leaves it Running. Everything observable is appended to a log.
 */
module KafkaRetry {
  import opened Wrappers
  import opened Backoff
  import opened KafkaErrors

  type Bytes = seq<int>

  datatype Message = Message(key: Bytes, value: Bytes)

  datatype Consumer = Consumer(retry: RetryConfig, dlqEnabled: bool, redactsValue: bool, redactsKey: bool)

  // One run of a redactor: Refused covers its error and a context already cancelled.
  datatype Redaction = Refused | Gave(bytes: Bytes, validJson: bool)

  // One turn of the dead-letter loop; canceled says which arm a wait, if reached, took.
  datatype DlqTurn = DlqTurn(value: Redaction, key: Redaction, acknowledged: bool, canceled: bool)

  // One handler call; None is success.
  datatype Turn = Turn(result: Option<Error>, canceled: bool)

  datatype Record = Record(key: Bytes, value: Bytes, error: Error, retryCount: int)

  datatype Kind = OrdinaryWait | HeldWait | DlqWait

  datatype Effect =
    | Handled(result: Option<Error>)
    | Retained
    | Released
    | Waited(kind: Kind, delay: int)
    | Canceled
    | Sent(record: Record, acknowledged: bool)

  datatype Status = Acknowledged | Aborted | Pending

  // (true, err), (false, ctx.Err()), or still looping.
  datatype Return = Commit(error: Option<Error>) | Stop | Running

  function DlqValue(c: Consumer, msg: Message, r: Redaction): Option<Bytes> {
    if !c.redactsValue then Some(msg.value)
    else if r.Gave? && r.validJson then Some(r.bytes)
    else None
  }

  function DlqKey(c: Consumer, msg: Message, r: Redaction): Option<Bytes> {
    if !c.redactsKey then Some(msg.key)
    else if r.Gave? then Some(r.bytes)
    else None
  }

  // The record a turn sends, or None when a redactor refused.
  function RecordOf(c: Consumer, msg: Message, error: Error, t: DlqTurn): Option<Record> {
    var value, key := DlqValue(c, msg, t.value), DlqKey(c, msg, t.key);
    if value.Some? && key.Some? then Some(Record(key.value, value.value, error, c.retry.maxRetries)) else None
  }

  function When(b: bool, e: Effect): seq<Effect> {
    if b then [e] else []
  }

  // The loop from its attempt-th turn on, after log has happened.
  function SendUntilSuccess(c: Consumer, msg: Message, error: Error, turns: seq<DlqTurn>, attempt: nat, retaining: bool,
                            log: seq<Effect>): (Status, seq<Effect>)
    decreases |turns|
  {
    if turns == [] then (Pending, log)
    else
      var t, r := turns[0], RecordOf(c, msg, error, turns[0]);
      var sent := if r.Some? then log + [Sent(r.value, t.acknowledged)] else log;
      if r.Some? && t.acknowledged then (Acknowledged, sent + When(retaining, Released))
      else
        var kept := sent + When(!retaining, Retained);
        if t.canceled then (Aborted, kept + [Canceled] + [Released])
        else SendUntilSuccess(c, msg, error, turns[1..], attempt + 1, true,
                              kept + [Waited(DlqWait, Calc(c.retry, attempt))])
  }

  // What follows the (maxRetries + 1)-th ordinary failure.
  function Exhausted(c: Consumer, msg: Message, error: Error, dlq: seq<DlqTurn>, log: seq<Effect>): (Return, seq<Effect>) {
    if !c.dlqEnabled then (Commit(Some(error)), log)
    else
      var (status, log') := SendUntilSuccess(c, msg, error, dlq, 0, false, log);
      (match status case Acknowledged => Commit(Some(error)) case Aborted => Stop case Pending => Running, log')
  }

  // The loop with its two retry counters and its retained-offset flag, after log has happened.
  function Handle(c: Consumer, msg: Message, turns: seq<Turn>, dlq: seq<DlqTurn>, normal: nat, held: nat, retaining: bool,
                  log: seq<Effect>): (Return, seq<Effect>)
    decreases |turns|
  {
    if turns == [] then (Running, log)
    else
      var t := turns[0];
      var seen := log + [Handled(t.result)];
      var kept, freed := seen + When(!retaining, Retained), seen + When(retaining, Released);
      if t.result.None? then (Commit(None), freed)
      else match DispositionOf(t.result.value)
        case Hold =>
          if t.canceled then (Stop, kept + [Canceled] + [Released])
          else Handle(c, msg, turns[1..], dlq, normal, held + 1, true, kept + [Waited(HeldWait, Calc(c.retry, held))])
        case Skip => (Commit(None), freed)
        case Retry =>
          if normal >= c.retry.maxRetries then Exhausted(c, msg, t.result.value, dlq, freed)
          else if t.canceled then (Stop, freed + [Canceled])
          else Handle(c, msg, turns[1..], dlq, normal + 1, held, false,
                      freed + [Waited(OrdinaryWait, Calc(c.retry, normal))])
  }

  // A whole call.
  function HandleMessage(c: Consumer, msg: Message, turns: seq<Turn>, dlq: seq<DlqTurn>): (Return, seq<Effect>) {
    Handle(c, msg, turns, dlq, 0, 0, false, [])
  }

  method SendToDLQUntilSuccess(c: Consumer, msg: Message, error: Error, turns: seq<DlqTurn>, before: seq<Effect>)
    returns (status: Status, log: seq<Effect>)
    ensures (status, log) == SendUntilSuccess(c, msg, error, turns, 0, false, before)
  {
    var retaining, attempt, i := false, 0, 0;
    log := before;
    while i < |turns|
      invariant 0 <= i <= |turns| && attempt == i
      invariant SendUntilSuccess(c, msg, error, turns[i..], attempt, retaining, log)
             == SendUntilSuccess(c, msg, error, turns, 0, false, before)
    {
      var t := turns[i];
      assert turns[i..][1..] == turns[i + 1..];
      var record := RecordOf(c, msg, error, t);
      if record.Some? {
        log := log + [Sent(record.value, t.acknowledged)];
        if t.acknowledged {
          return Acknowledged, log + When(retaining, Released);
        }
      }
      log := log + When(!retaining, Retained);
      retaining := true;
      attempt := attempt + 1;
      if t.canceled {
        return Aborted, log + [Canceled] + [Released];
      }
      var delay := CalcBackoff(c.retry, attempt - 1);
      log := log + [Waited(DlqWait, delay)];
      i := i + 1;
    }
    status := Pending;
  }

  method HandleWithRetry(c: Consumer, msg: Message, turns: seq<Turn>, dlq: seq<DlqTurn>)
    returns (ret: Return, log: seq<Effect>)
    ensures (ret, log) == HandleMessage(c, msg, turns, dlq)
  {
    var normalRetries: nat, nonCommittableRetries: nat, retaining, i := 0, 0, false, 0;
    log := [];
    while i < |turns|
      invariant 0 <= i <= |turns|
      invariant Handle(c, msg, turns[i..], dlq, normalRetries, nonCommittableRetries, retaining, log)
             == HandleMessage(c, msg, turns, dlq)
    {
      var t := turns[i];
      assert turns[i..][1..] == turns[i + 1..];
      log := log + [Handled(t.result)];
      if t.result.None? {
        return Commit(None), log + When(retaining, Released);
      }
      if IsRetryUntilCanceled(t.result.value) {
        log := log + When(!retaining, Retained);
        retaining := true;
        var delay := CalcBackoff(c.retry, nonCommittableRetries);
        nonCommittableRetries := nonCommittableRetries + 1;
        if t.canceled {
          return Stop, log + [Canceled] + [Released];
        }
        log := log + [Waited(HeldWait, delay)];
      } else {
        log := log + When(retaining, Released);
        retaining := false;
        if IsUnmarshalError(t.result.value) {
          return Commit(None), log;
        }
        if normalRetries >= c.retry.maxRetries {
          if !c.dlqEnabled {
            return Commit(t.result), log;
          }
          var status;
          status, log := SendToDLQUntilSuccess(c, msg, t.result.value, dlq, log);
          match status
          case Acknowledged => return Commit(t.result), log;
          case Aborted => return Stop, log;
          case Pending => return Running, log;
        }
        var delay := CalcBackoff(c.retry, normalRetries);
        normalRetries := normalRetries + 1;
        if t.canceled {
          return Stop, log + [Canceled];
        }
        log := log + [Waited(OrdinaryWait, delay)];
      }
      i := i + 1;
    }
    ret := Running;
  }
}
