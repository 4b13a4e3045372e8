/** Consumer options and the privacy invariants enforced once all of them have run. */
module KafkaOptions {
  import opened Wrappers
  import opened Backoff
  import opened KafkaErrors
  import opened KafkaRetry

  // Redactors as configured; Absent is nil. RefuseAll and DropKey are the two built-in ones.
  datatype ValueRedactor = AbsentValue | CustomValue(id: nat) | RefuseAll
  datatype KeyRedactor = AbsentKey | CustomKey(id: nat) | DropKey

  datatype ConsumerOption =
    | NilOption
    | WithValueRedactor(value: ValueRedactor)
    | WithKeyRedactor(key: KeyRedactor)
    | WithEventDecodeErrorsToDLQ(decode: ValueRedactor)

  datatype Redaction = Redaction(value: ValueRedactor, key: KeyRedactor, decodeToDlq: bool)

  // The redactor of the last WithEventDecodeErrorsToDLQ, if there is one.
  function LastDecode(options: seq<ConsumerOption>): Option<ValueRedactor> {
    if options == [] then None
    else
      var last := options[|options| - 1];
      if last.WithEventDecodeErrorsToDLQ? then Some(last.decode) else LastDecode(options[..|options| - 1])
  }

  function LastValue(options: seq<ConsumerOption>): ValueRedactor {
    if options == [] then AbsentValue
    else
      var last := options[|options| - 1];
      if last.WithValueRedactor? then last.value else LastValue(options[..|options| - 1])
  }

  function LastKey(options: seq<ConsumerOption>): KeyRedactor {
    if options == [] then AbsentKey
    else
      var last := options[|options| - 1];
      if last.WithKeyRedactor? then last.key else LastKey(options[..|options| - 1])
  }

  // Decode errors to the dead-letter topic win over every other option, in whatever order they came.
  function Final(options: seq<ConsumerOption>): Redaction {
    match LastDecode(options)
    case None => Redaction(LastValue(options), LastKey(options), false)
    case Some(r) => Redaction(if r == AbsentValue then RefuseAll else r, DropKey, true)
  }

  class ConsumerBuilder {
    var valueRedactor: ValueRedactor
    var keyRedactor: KeyRedactor
    var eventDecodeErrorsToDLQ: bool
    var eventDecodeRedactor: ValueRedactor

    function Redactors(): Redaction
      reads this
    {
      Redaction(valueRedactor, keyRedactor, eventDecodeErrorsToDLQ)
    }

    constructor (options: seq<ConsumerOption>)
      ensures Redactors() == Final(options)
    {
      valueRedactor, keyRedactor, eventDecodeErrorsToDLQ, eventDecodeRedactor := AbsentValue, AbsentKey, false, AbsentValue;
      new;
      for i := 0 to |options|
        invariant valueRedactor == LastValue(options[..i]) && keyRedactor == LastKey(options[..i])
        invariant eventDecodeErrorsToDLQ == LastDecode(options[..i]).Some?
        invariant eventDecodeErrorsToDLQ ==> eventDecodeRedactor == LastDecode(options[..i]).value
      {
        assert options[..i + 1][..i] == options[..i];
        match options[i] {
          case NilOption =>
          case WithValueRedactor(r) => valueRedactor := r;
          case WithKeyRedactor(r) => keyRedactor := r;
          case WithEventDecodeErrorsToDLQ(r) => eventDecodeErrorsToDLQ, eventDecodeRedactor := true, r;
        }
      }
      assert options[..|options|] == options;
      FinalizeOptions();
    }

    method FinalizeOptions()
      modifies this
      ensures eventDecodeErrorsToDLQ == old(eventDecodeErrorsToDLQ)
      ensures if eventDecodeErrorsToDLQ
              then keyRedactor == DropKey
                   && valueRedactor == (if old(eventDecodeRedactor) == AbsentValue then RefuseAll else old(eventDecodeRedactor))
              else keyRedactor == old(keyRedactor) && valueRedactor == old(valueRedactor)
    {
      if !eventDecodeErrorsToDLQ {
        return;
      }
      if eventDecodeRedactor == AbsentValue {
        eventDecodeRedactor := RefuseAll;
      }
      valueRedactor := eventDecodeRedactor;
      keyRedactor := DropKey;
    }
  }

  // The consumer the retry loop sees.
  function Build(retry: RetryConfig, dlqEnabled: bool, r: Redaction): Consumer {
    Consumer(retry, dlqEnabled, r.value != AbsentValue, r.key != AbsentKey)
  }

  // decodeEvent on bytes that do not parse.
  function DecodeFailure(r: Redaction, cause: Error): Error {
    if r.decodeToDlq then EventDecodeError(cause) else UnmarshalError(EventDecodeError(cause))
  }

  /** Routing of malformed events, for any option list: by default they are skipped; once any option asks for
      dead-lettering they are retried and dead-lettered instead, and then both redactors are in force whatever
      the other options were, so no source bytes reach the dead-letter topic. */
  lemma MalformedEvents(retry: RetryConfig, options: seq<ConsumerOption>, cause: Error)
    requires DispositionOf(cause) == Retry
    ensures var r := Final(options);
            var c := Build(retry, true, r);
      && r.decodeToDlq == (exists o :: o in options && o.WithEventDecodeErrorsToDLQ?)
      && DispositionOf(DecodeFailure(r, cause)) == (if r.decodeToDlq then Retry else Skip)
      && (r.decodeToDlq ==> c.redactsValue && c.redactsKey && r.key == DropKey)
  {
    LastDecodeExists(options);
    var e := EventDecodeError(cause);
    assert IsRetryUntilCanceled(e) == IsRetryUntilCanceled(cause) && IsUnmarshalError(e) == IsUnmarshalError(cause);
    assert IsRetryUntilCanceled(UnmarshalError(e)) == IsRetryUntilCanceled(e);
  }

  lemma {:induction false} LastDecodeExists(options: seq<ConsumerOption>)
    ensures LastDecode(options).Some? <==> exists o :: o in options && o.WithEventDecodeErrorsToDLQ?
  {
    if options == [] {
    } else {
      var front, last := options[..|options| - 1], options[|options| - 1];
      assert options == front + [last];
      LastDecodeExists(front);
      assert forall o :: o in front ==> o in options;
      assert forall o :: o in options ==> o in front || o == last;
    }
  }

  /** Which redactors the retry loop has to reckon with, for any option list: the last value redactor and the last key
      redactor given, if not nil, and both once decode errors are dead-lettered. */
  lemma RedactorsInForce(retry: RetryConfig, dlqEnabled: bool, options: seq<ConsumerOption>)
    ensures
      var c := Build(retry, dlqEnabled, Final(options));
      var decodes := exists o :: o in options && o.WithEventDecodeErrorsToDLQ?;
      && (c.redactsValue <==> decodes || LastValue(options) != AbsentValue)
      && (c.redactsKey <==> decodes || LastKey(options) != AbsentKey)
      && c.retry == retry && c.dlqEnabled == dlqEnabled
  {
    LastDecodeExists(options);
  }
}
