/** The consume loop: fetch, handle with retry, commit. */
module KafkaConsume {
  import opened KafkaErrors
  import opened KafkaRetry
  import opened KafkaRetryRuns

  // One turn of the loop as the environment plays it. done: the context is already cancelled.
  datatype Poll = Poll(done: bool, fetch: Fetch, commits: bool)

  datatype Fetch = Failed(canceled: bool) | Fetched(msg: Message, turns: seq<Turn>, dlq: seq<DlqTurn>)

  // Messages are numbered in the order they are fetched.
  datatype Event =
    | Got(index: nat)
    | Finished(index: nat, log: seq<Effect>)
    | Committed(index: nat)
    | CommitFailed(index: nat)

  datatype Exit = Exited | Looping

  function ConsumeFrom(c: Consumer, polls: seq<Poll>, next: nat, log: seq<Event>): (Exit, seq<Event>)
    decreases |polls|
  {
    if polls == [] then (Looping, log)
    else if polls[0].done then (Exited, log)
    else match polls[0].fetch
      case Failed(canceled) => if canceled then (Exited, log) else ConsumeFrom(c, polls[1..], next, log)
      case Fetched(msg, turns, dlq) =>
        var (ret, effects) := HandleMessage(c, msg, turns, dlq);
        var finished := log + [Got(next)] + [Finished(next, effects)];
        match ret
        case Stop => (Exited, finished)
        case Running => (Looping, log + [Got(next)])
        case Commit(_) =>
          ConsumeFrom(c, polls[1..], next + 1,
                      finished + [if polls[0].commits then Committed(next) else CommitFailed(next)])
  }

  method Consume(c: Consumer, polls: seq<Poll>) returns (exit: Exit, log: seq<Event>)
    ensures (exit, log) == ConsumeFrom(c, polls, 0, [])
  {
    var next: nat, i := 0, 0;
    log := [];
    while i < |polls|
      invariant 0 <= i <= |polls|
      invariant ConsumeFrom(c, polls[i..], next, log) == ConsumeFrom(c, polls, 0, [])
    {
      var poll := polls[i];
      assert polls[i..][1..] == polls[i + 1..];
      if poll.done {
        return Exited, log;
      }
      match poll.fetch {
      case Failed(canceled) =>
        if canceled {
          return Exited, log;
        }
      case Fetched(msg, turns, dlq) =>
        log := log + [Got(next)];
        var ret, effects := HandleWithRetry(c, msg, turns, dlq);
        if ret.Running? {
          return Looping, log;
        }
        log := log + [Finished(next, effects)];
        if ret.Stop? {
          return Exited, log;
        }
        log := log + [if poll.commits then Committed(next) else CommitFailed(next)];
        next := next + 1;
      }
      i := i + 1;
    }
    exit := Looping;
  }

  // The message was handled, skipped as undecodable, or exhausted its retries, and in the last
  // case acknowledged by the dead-letter broker if there is one.
  predicate Resolved(c: Consumer, effects: seq<Effect>) {
    var results := Results(effects);
    && results != []
    && (|| Settles(results[|results| - 1])
        || (Ordinaries(effects) == c.retry.maxRetries + 1
            && |Acknowledgements(effects)| == if c.dlqEnabled then 1 else 0))
  }

  // Message k was resolved somewhere in the log.
  ghost predicate ResolvedIn(c: Consumer, log: seq<Event>, k: nat) {
    exists e | e in log :: e.Finished? && e.index == k && Resolved(c, e.log)
  }

  // What an event needs of the log before it.
  ghost predicate Justified(c: Consumer, before: seq<Event>, e: Event) {
    match e
    case Got(j) => forall k: nat | k < j :: ResolvedIn(c, before, k)
    case Committed(j) => forall k: nat | k <= j :: ResolvedIn(c, before, k)
    case _ => true
  }

  ghost predicate Lossless(c: Consumer, log: seq<Event>) {
    forall p | 0 <= p < |log| :: Justified(c, log[..p], log[p])
  }

  lemma LosslessSnoc(c: Consumer, log: seq<Event>, e: Event)
    requires Lossless(c, log) && Justified(c, log, e)
    ensures Lossless(c, log + [e])
  {
    var log' := log + [e];
    forall p | 0 <= p < |log'| ensures Justified(c, log'[..p], log'[p]) {
      assert log'[..p] == log[..p];
      assert p == |log| ==> log[..p] == log;
    }
  }

  lemma ResolvedLater(c: Consumer, log: seq<Event>, e: Event, next: nat)
    requires forall k: nat | k < next :: ResolvedIn(c, log, k)
    ensures forall k: nat | k < next :: ResolvedIn(c, log + [e], k)
    ensures e.Finished? && e.index == next && Resolved(c, e.log) ==> ResolvedIn(c, log + [e], next)
  {
    forall k: nat | k < next ensures ResolvedIn(c, log + [e], k) {
      assert ResolvedIn(c, log, k);
      var x :| x in log && x.Finished? && x.index == k && Resolved(c, x.log);
      assert x in log + [e];
    }
    assert e in log + [e];
  }

  lemma CommitResolves(c: Consumer, msg: Message, turns: seq<Turn>, dlq: seq<DlqTurn>)
    requires 0 <= c.retry.maxRetries && HandleMessage(c, msg, turns, dlq).0.Commit?
    ensures Resolved(c, HandleMessage(c, msg, turns, dlq).1)
  {
    hide Handle, SendUntilSuccess, Ordinaries, Acknowledgements, Cancellations, Results;
    RetryBudget(c, msg, turns, dlq);
  }

  lemma OneMessage(c: Consumer, next: nat, log: seq<Event>, effects: seq<Effect>, commits: bool)
    requires Lossless(c, log) && forall k: nat | k < next :: ResolvedIn(c, log, k)
    ensures Lossless(c, log + [Got(next)]) && Lossless(c, log + [Got(next)] + [Finished(next, effects)])
    ensures var log' := log + [Got(next)] + [Finished(next, effects)]
                        + [if commits then Committed(next) else CommitFailed(next)];
      Resolved(c, effects) ==> Lossless(c, log') && forall k: nat | k < next + 1 :: ResolvedIn(c, log', k)
  {
    hide Resolved, ResolvedIn, Lossless;
    var got := log + [Got(next)];
    var finished := got + [Finished(next, effects)];
    var last := if commits then Committed(next) else CommitFailed(next);
    LosslessSnoc(c, log, Got(next));
    ResolvedLater(c, log, Got(next), next);
    LosslessSnoc(c, got, Finished(next, effects));
    ResolvedLater(c, got, Finished(next, effects), next);
    if Resolved(c, effects) {
      LosslessSnoc(c, finished, last);
      ResolvedLater(c, finished, last, next + 1);
    }
  }

  lemma {:induction false} ConsumeFromIsLossless(c: Consumer, polls: seq<Poll>, next: nat, log: seq<Event>)
    requires 0 <= c.retry.maxRetries
    requires Lossless(c, log) && forall k: nat | k < next :: ResolvedIn(c, log, k)
    ensures Lossless(c, ConsumeFrom(c, polls, next, log).1)
    decreases |polls|
  {
    hide Resolved, ResolvedIn, Lossless, HandleMessage;
    if polls != [] && !polls[0].done {
      match polls[0].fetch
      case Failed(canceled) =>
        ConsumeFromIsLossless(c, polls[1..], next, log);
      case Fetched(msg, turns, dlq) =>
        var (ret, effects) := HandleMessage(c, msg, turns, dlq);
        OneMessage(c, next, log, effects, polls[0].commits);
        if ret.Commit? {
          CommitResolves(c, msg, turns, dlq);
          ConsumeFromIsLossless(c, polls[1..], next + 1, log + [Got(next)] + [Finished(next, effects)]
                                + [if polls[0].commits then Committed(next) else CommitFailed(next)]);
        }
    }
  }

  /** No message is lost by a commit: in every run, when an offset is committed, that message and every message
      fetched before it had been resolved, and no message is ever fetched after an unresolved one. A failed commit
      changes nothing about that: a later commit still covers only resolved messages. */
  lemma NoMessageLost(c: Consumer, polls: seq<Poll>, p: nat)
    requires 0 <= c.retry.maxRetries && p < |ConsumeFrom(c, polls, 0, []).1|
    ensures var log := ConsumeFrom(c, polls, 0, []).1;
      && (log[p].Committed? ==> forall k: nat | k <= log[p].index :: ResolvedIn(c, log[..p], k))
      && (log[p].Got? ==> forall k: nat | k < log[p].index :: ResolvedIn(c, log[..p], k))
  {
    hide Resolved, ResolvedIn, ConsumeFrom;
    ConsumeFromIsLossless(c, polls, 0, []);
    var log := ConsumeFrom(c, polls, 0, []).1;
    assert Justified(c, log[..p], log[p]);
  }

  // ----- Progress -----

  // What comes right after an event: a fetched message is handled to its end; unless that was a cancellation its commit
  // is tried, and only then is the next message fetched.
  predicate MayFollow(e: Event, next: Event) {
    match e
    case Got(j) => next.Finished? && next.index == j
    case Finished(j, effects) => Cancellations(effects) == 0 && (next == Committed(j) || next == CommitFailed(j))
    case Committed(j) => next == Got(j + 1)
    case CommitFailed(j) => next == Got(j + 1)
  }

  predicate Orderly(log: seq<Event>) {
    && (log != [] ==> log[0] == Got(0))
    && forall p | 0 <= p < |log| - 1 :: MayFollow(log[p], log[p + 1])
  }

  // Ready to fetch message number next.
  predicate Ready(log: seq<Event>, next: nat) {
    && Orderly(log)
    && if log == [] then next == 0
       else next > 0 && log[|log| - 1] in {Committed(next - 1), CommitFailed(next - 1)}
  }

  lemma OrderlySnoc(log: seq<Event>, e: Event)
    requires Orderly(log) && if log == [] then e == Got(0) else MayFollow(log[|log| - 1], e)
    ensures Orderly(log + [e])
  {
    hide MayFollow;
    var log' := log + [e];
    forall p | 0 <= p < |log'| - 1
      ensures MayFollow(log'[p], log'[p + 1])
    {
      if p < |log| - 1 {
        assert log'[p] == log[p] && log'[p + 1] == log[p + 1];
      }
    }
  }

  lemma OrderlyMessage(log: seq<Event>, next: nat, effects: seq<Effect>, commits: bool)
    requires Ready(log, next)
    ensures
      var got := log + [Got(next)];
      var finished := got + [Finished(next, effects)];
      && Orderly(got) && Orderly(finished)
      && (Cancellations(effects) == 0 ==>
            Ready(finished + [if commits then Committed(next) else CommitFailed(next)], next + 1))
  {
    hide Orderly, Cancellations;
    OrderlyMeans(log);
    OrderlySnoc(log, Got(next));
    OrderlySnoc(log + [Got(next)], Finished(next, effects));
    if Cancellations(effects) == 0 {
      OrderlySnoc(log + [Got(next)] + [Finished(next, effects)], if commits then Committed(next) else CommitFailed(next));
    }
  }

  lemma OrderlyMeans(log: seq<Event>)
    requires Orderly(log)
    ensures log != [] ==> log[0] == Got(0)
  {
  }

  // How the loop leaves off: it returned, or its script ended, before a fetch, in the middle of a message, or, when it
  // returned on a cancelled message, right after that.
  ghost predicate LeavesOff(exit: Exit, log: seq<Event>) {
    && Orderly(log)
    && (log != [] && log[|log| - 1].Got? ==> exit == Looping)
    && (log != [] && log[|log| - 1].Finished? ==> exit == Exited && Cancellations(log[|log| - 1].log) > 0)
  }

  lemma {:induction false} ConsumeFromIsOrderly(c: Consumer, polls: seq<Poll>, next: nat, log: seq<Event>)
    requires 0 <= c.retry.maxRetries && Ready(log, next)
    ensures LeavesOff(ConsumeFrom(c, polls, next, log).0, ConsumeFrom(c, polls, next, log).1)
    decreases |polls|
  {
    hide Orderly, HandleMessage, Cancellations, MayFollow;
    if polls != [] && !polls[0].done {
      match polls[0].fetch
      case Failed(canceled) =>
        if !canceled {
          ConsumeFromIsOrderly(c, polls[1..], next, log);
        }
      case Fetched(msg, turns, dlq) =>
        var (ret, effects) := HandleMessage(c, msg, turns, dlq);
        OrderlyMessage(log, next, effects, polls[0].commits);
        StopMeansCanceled(c, msg, turns, dlq);
        if ret.Commit? {
          ConsumeFromIsOrderly(c, polls[1..], next + 1, log + [Got(next)] + [Finished(next, effects)]
                               + [if polls[0].commits then Committed(next) else CommitFailed(next)]);
        }
    }
  }

  lemma StopMeansCanceled(c: Consumer, msg: Message, turns: seq<Turn>, dlq: seq<DlqTurn>)
    requires 0 <= c.retry.maxRetries
    ensures HandleMessage(c, msg, turns, dlq).0.Stop? <==> Cancellations(HandleMessage(c, msg, turns, dlq).1) > 0
  {
    hide HandleMessage, Ordinaries, Acknowledgements, Cancellations, Results;
    RetryBudget(c, msg, turns, dlq);
  }

  /** Messages are taken one by one from the first, each is handled to its end, and each that was not cancelled has its
      commit tried before the next fetch; the loop leaves a message half done only while its script is unfinished,
      and an uncommitted one only by returning on cancellation. */
  lemma {:induction false} EveryMessageIsFinished(c: Consumer, polls: seq<Poll>)
    requires 0 <= c.retry.maxRetries
    ensures LeavesOff(ConsumeFrom(c, polls, 0, []).0, ConsumeFrom(c, polls, 0, []).1)
  {
    ConsumeFromIsOrderly(c, polls, 0, []);
  }

  // The effects end on a result no link of which is non-committable.
  ghost predicate NotHeld(effects: seq<Effect>) {
    var results := Results(effects);
    && results != []
    && (results[|results| - 1].Some? ==> !HasHold(Chain(results[|results| - 1].value)))
  }

  // Whatever is committed, or tried to be, was finished right before and not held.
  ghost predicate NothingHeld(log: seq<Event>) {
    forall p | 0 <= p < |log| && (log[p].Committed? || log[p].CommitFailed?) ::
      p > 0 && log[p - 1].Finished? && log[p - 1].index == log[p].index && NotHeld(log[p - 1].log)
  }

  lemma NothingHeldSnoc(log: seq<Event>, e: Event)
    requires NothingHeld(log)
    requires e.Committed? || e.CommitFailed? ==>
      log != [] && var f := log[|log| - 1]; f.Finished? && f.index == e.index && NotHeld(f.log)
    ensures NothingHeld(log + [e])
  {
    hide NotHeld;
    var log' := log + [e];
    forall p | 0 <= p < |log'| && (log'[p].Committed? || log'[p].CommitFailed?)
      ensures p > 0 && log'[p - 1].Finished? && log'[p - 1].index == log'[p].index && NotHeld(log'[p - 1].log)
    {
      if p < |log| {
        assert log'[p] == log[p] && (p > 0 ==> log'[p - 1] == log[p - 1]);
      }
    }
  }

  lemma OneMessageNotHeld(log: seq<Event>, next: nat, effects: seq<Effect>, commits: bool)
    requires NothingHeld(log)
    ensures NothingHeld(log + [Got(next)]) && NothingHeld(log + [Got(next)] + [Finished(next, effects)])
    ensures NotHeld(effects) ==> NothingHeld(log + [Got(next)] + [Finished(next, effects)]
                                             + [if commits then Committed(next) else CommitFailed(next)])
  {
    hide NotHeld, NothingHeld;
    NothingHeldSnoc(log, Got(next));
    NothingHeldSnoc(log + [Got(next)], Finished(next, effects));
    if NotHeld(effects) {
      NothingHeldSnoc(log + [Got(next)] + [Finished(next, effects)], if commits then Committed(next) else CommitFailed(next));
    }
  }

  lemma CommitIsNotHeld(c: Consumer, msg: Message, turns: seq<Turn>, dlq: seq<DlqTurn>)
    requires 0 <= c.retry.maxRetries && HandleMessage(c, msg, turns, dlq).0.Commit?
    ensures NotHeld(HandleMessage(c, msg, turns, dlq).1)
  {
    hide HandleMessage, Results;
    HeldIsNeverCommitted(c, msg, turns, dlq);
  }

  lemma {:induction false} ConsumeFromHoldsNothing(c: Consumer, polls: seq<Poll>, next: nat, log: seq<Event>)
    requires 0 <= c.retry.maxRetries && NothingHeld(log)
    ensures NothingHeld(ConsumeFrom(c, polls, next, log).1)
    decreases |polls|
  {
    hide NotHeld, NothingHeld, HandleMessage;
    if polls == [] || polls[0].done {
    } else {
      match polls[0].fetch
      case Failed(canceled) =>
        ConsumeFromHoldsNothing(c, polls[1..], next, log);
      case Fetched(msg, turns, dlq) =>
        var (ret, effects) := HandleMessage(c, msg, turns, dlq);
        OneMessageNotHeld(log, next, effects, polls[0].commits);
        if ret.Commit? {
          CommitIsNotHeld(c, msg, turns, dlq);
          ConsumeFromHoldsNothing(c, polls[1..], next + 1, log + [Got(next)] + [Finished(next, effects)]
                                  + [if polls[0].commits then Committed(next) else CommitFailed(next)]);
        }
    }
  }

  /** In every run of the consume loop, an offset is committed only right after its message was handled to an end that no
      non-committable error, however wrapped, is part of. */
  lemma {:induction false} NoHeldMessageIsCommitted(c: Consumer, polls: seq<Poll>, p: nat)
    requires 0 <= c.retry.maxRetries && p < |ConsumeFrom(c, polls, 0, []).1| && ConsumeFrom(c, polls, 0, []).1[p].Committed?
    ensures var log := ConsumeFrom(c, polls, 0, []).1;
      && p > 0 && log[p - 1].Finished? && log[p - 1].index == log[p].index
      && var results := Results(log[p - 1].log);
         results != [] && (results[|results| - 1].Some? ==> !HasHold(Chain(results[|results| - 1].value)))
  {
    hide ConsumeFrom, Results, HasHold;
    ConsumeFromHoldsNothing(c, polls, 0, []);
  }

  // ----- What ends the loop -----

  // A turn after which the loop fetches again.
  predicate GoesAround(c: Consumer, p: Poll) {
    !p.done && match p.fetch
      case Failed(canceled) => !canceled
      case Fetched(msg, turns, dlq) => HandleMessage(c, msg, turns, dlq).0.Commit?
  }

  // A turn on which it returns: cancellation was seen, before or in the fetch or while handling.
  predicate Returns(c: Consumer, p: Poll) {
    p.done || match p.fetch
      case Failed(canceled) => canceled
      case Fetched(msg, turns, dlq) => Cancellations(HandleMessage(c, msg, turns, dlq).1) > 0
  }

  /** The loop goes around fetch errors and settled messages for ever and returns exactly on the first turn that sees
      cancellation. */
  lemma {:induction false} OnlyCancellationEnds(c: Consumer, polls: seq<Poll>, next: nat, log: seq<Event>) returns (n: nat)
    requires 0 <= c.retry.maxRetries
    ensures n <= |polls| && forall i | 0 <= i < n :: GoesAround(c, polls[i])
    ensures n < |polls| ==> !GoesAround(c, polls[n])
    ensures ConsumeFrom(c, polls, next, log).0 == if n < |polls| && Returns(c, polls[n]) then Exited else Looping
    decreases |polls|
  {
    hide HandleMessage, Cancellations;
    if polls == [] {
      n := 0;
    } else if !GoesAround(c, polls[0]) {
      n := 0;
      if polls[0].fetch.Fetched? {
        StopMeansCanceled(c, polls[0].fetch.msg, polls[0].fetch.turns, polls[0].fetch.dlq);
      }
    } else {
      var m;
      match polls[0].fetch {
        case Failed(_) =>
          m := OnlyCancellationEnds(c, polls[1..], next, log);
        case Fetched(msg, turns, dlq) =>
          m := OnlyCancellationEnds(c, polls[1..], next + 1,
                                    log + [Got(next)] + [Finished(next, HandleMessage(c, msg, turns, dlq).1)]
                                    + [if polls[0].commits then Committed(next) else CommitFailed(next)]);
      }
      n := m + 1;
      assert forall i | 0 < i < n :: polls[i] == polls[1..][i - 1];
    }
  }
}
