/** Error chains of the Kafka consumer and the three dispositions read off them. */
module KafkaErrors {

  // An error value with its Unwrap chain.
  datatype Error =
    | Plain(text: string)
    | Wrapped(text: string, cause: Error)
    | UnmarshalError(cause: Error)
    | NonCommittable(cause: Error)
    | EventDecodeError(cause: Error)

  // errors.As over *UnmarshalError
  predicate IsUnmarshalError(e: Error) {
    e.UnmarshalError? || (!e.Plain? && IsUnmarshalError(e.cause))
  }

  // errors.As over *retryUntilCanceledError
  predicate IsRetryUntilCanceled(e: Error) {
    e.NonCommittable? || (!e.Plain? && IsRetryUntilCanceled(e.cause))
  }

  datatype Disposition = Hold | Skip | Retry

  // The order handleWithRetry asks in: a non-committable error is held even when it wraps a decode error.
  function DispositionOf(e: Error): Disposition {
    if IsRetryUntilCanceled(e) then Hold
    else if IsUnmarshalError(e) then Skip
    else Retry
  }

  // The links of the Unwrap chain, outermost first.
  function Chain(e: Error): (links: seq<Error>)
    ensures links != []
  {
    if e.Plain? then [e] else [e] + Chain(e.cause)
  }

  predicate HasHold(links: seq<Error>) {
    exists i | 0 <= i < |links| :: links[i].NonCommittable?
  }

  predicate HasSkip(links: seq<Error>) {
    exists i | 0 <= i < |links| :: links[i].UnmarshalError?
  }

  lemma {:induction false} ChainSearch(e: Error)
    ensures IsRetryUntilCanceled(e) <==> HasHold(Chain(e))
    ensures IsUnmarshalError(e) <==> HasSkip(Chain(e))
  {
    if e.Plain? {
      assert Chain(e)[0] == e;
    } else {
      var rest, links := Chain(e.cause), Chain(e);
      ChainSearch(e.cause);
      assert links[0] == e && forall i | 0 <= i < |rest| :: links[i + 1] == rest[i];
      assert forall i | 0 < i < |links| :: links[i] == rest[i - 1];
    }
  }

  /** The disposition of an error, however deeply wrapped: held if and only if some link is non-committable; skipped if
      and only if none is and some link is an unmarshal error; retried otherwise. */
  lemma DispositionMeans(e: Error)
    ensures DispositionOf(e) == Hold <==> HasHold(Chain(e))
    ensures DispositionOf(e) == Skip <==> !HasHold(Chain(e)) && HasSkip(Chain(e))
    ensures DispositionOf(e) == Retry <==> !HasHold(Chain(e)) && !HasSkip(Chain(e))
  {
    ChainSearch(e);
  }
}
