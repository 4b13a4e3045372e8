# Models of the shared service libraries

Dafny 4.11 models of the stateful protocols in cg-shared-libs, with proofs of what they promise over whole runs.
`dafny verify dfyconfig.toml` checks the project.

- **Rate limiter** (`MemberNames`, `SortedSet`, `RateLimiter`, `RateLimitRuns`, `RateLimitLog`,
  `RateLimitReplay`). The Redis key is a map from member to score. Each call is one atomic trim/count/add transaction, and a
  denial is followed by a second one that takes the batch out again. Runs interleave any number of clients whose clocks
  differ by up to `skew`; rollbacks come late, in part or never; scores are rounded by up to `slack`; the key may expire a
  window after it was last touched.
- **Circuit breaker** (`Breaker`, `BreakerRuns`, `BreakerLeftovers`, `BreakerRecovery`). The two critical sections of a
  call, with the protected function between them, outside the lock. A run is any sequence of begins, ends and resets;
  every stay in one mode is an epoch, and a call admitted in one epoch may end in any later one.
- **Kafka consumer** (`Backoff`, `KafkaErrors`, `KafkaRetry`, `KafkaRetryRuns`, `KafkaRetryDecision`, `KafkaRedaction`,
  `KafkaConsume`, `KafkaTopics`, `KafkaOptions`). The retry loop, the dead-letter loop nested in it and the fetch/commit
  loop around them, driven by finite scripts of what handlers, redactors, brokers and cancellation do. Everything
  observable goes to a log.
- **JWKS cache and codec** (`Jwks`, `JwksRuns`, `JwksProgress`, `JwksSolo`, `Base64Url`, `JwkCodec`). Lookups are
  interleaved at every lock and every clock reading, together with background refreshes that do not take the refresh lock.
  The codec follows section 6.3.1 and the Base64urlUInt of section 2 of RFC 7518.
- **gRPC client** (`GrpcRetry`, `GrpcClient`, `GrpcRuns`, `GrpcBlame`). The bounded retry loop, the double-checked breaker
  registry, and every interleaving of every call through registry, breaker and loop.
- **Replica pool** (`Replicas`), **token refresh chains** (`Tokens`) and **IP ranges** (`IpRange`).

`Wrappers`, `Machine`, `Bytes` and `Collections` hold what they share.

Classes and methods have the source's form and are proved against functions on values, or against an outcome stated
outright. The properties of whole runs are proved of those functions, or of a step-by-step model where calls interleave.

Where the code differs from what is said about it, the model follows the code:

- A half-open episode admits `maxHalfOpenCalls + 1` calls, not `maxHalfOpenCalls`: the call that starts it is not counted
  (`EpisodeBound`, `EpisodeBoundIsTight`).
- The successes that close a half-open breaker need not come from its own probes (`LeftoverSuccessCloses`); they do exactly
  when nothing else is in flight as the episode begins (`EpisodeIsOwnIff`).
- The limiter gives the answers of a plain log of admissions, except before 1970 and, since a key expires by the time stamp
  of a batch while its scores run ahead of it, for batches of more than one request (`LimiterRefinesLogIff`).
- A read from the replica pool can index out of range once its counter, or the counter times 31, leaves int64
  (`ReadPanicsIff`).
- `calcBackoff` is the capped doubling of its comment only while no doubling up to the cap leaves int64, and only if the
  minimum is not above the cap (`CalcIsIdeal` has the exact condition).
- The "random" replica strategy is as even as round robin, except when 31 divides the number of usable replicas
  (`RandomIsFairIff`).
- `ipInRange` tests bytes one by one. That is the interval test of its comment exactly for the block ranges it is used
  with, and for empty ones (`RangeTestIsExactIff`).
- A derived ".dlq" topic name stays as it is when qualified again, unless the consumer's topic is blank
  (`DlqNameIsQualified`).

## Model

| member | source | states |
|---|---|---|
| `MemberNames.TextInjective` | ratelimit/ratelimit.go:41-52 | Two members never share a text, for any time stamp (negative ones too), batch number and index, so a set keyed by text behaves like one keyed by the triple. |
| `MemberNames.DigitsDenote` | ratelimit/ratelimit.go:48 | The digits of a number in a member's text denote that number in base ten. |
| `SortedSet.NextBatchIsFresh` | ratelimit/ratelimit.go:36-52 | Members of the next batch differ from all earlier ones whatever the clock reads, as long as the process-wide counter has not wrapped. |
| `RateLimiter.MemberSequence.NewMembers` | ratelimit/ratelimit.go:41-52 | One call takes one batch number (wrapping at 64 bits) and makes members 0..n-1 with scores now, now + 1, ...; below the wrap none of them is among any members of earlier numbers, and that stays so. |
| `RateLimiter.MemberSequence.Fill` | ratelimit/ratelimit.go:44-51 | The slice-filling loop makes exactly the batch of members and scores, for every n. |
| `RateLimiter.Limiter.Transact` | ratelimit/ratelimit.go:126-148 | The transaction counts what survives the trim and then adds the batch whatever the count is. |
| `RateLimiter.Limiter.Rollback` | ratelimit/ratelimit.go:165-176 | A successful rollback takes out the denied members and nothing else; a failed one changes nothing. |
| `RateLimiter.Limiter.AllowN` | ratelimit/ratelimit.go:125-186 | One undisturbed call: the decision, the clamped Remaining and the set it leaves, for every outcome of the rollback; below the wrap a rolled-back denial leaves exactly the trimmed set, and an admission or a lost rollback adds n entries to it. |
| `RateLimiter.Limiter.GetCount` | ratelimit/ratelimit.go:195-210 | Trims and returns the size of what is left. |
| `RateLimiter.RollbackRestores` | ratelimit/ratelimit.go:165-176 | After a denial and its rollback the set is the trimmed one: a denial costs no quota. |
| `RateLimitRuns.RunKeepsInv` | ratelimit/ratelimit.go:125-186 | Over every interleaved run: an admitted request is in the set or out of every client's window, the set holds only admitted and denied members, and the window bound holds. |
| `RateLimitRuns.WindowBound` | ratelimit/ratelimit.go:125-186 | No run admits more than Limit requests in an interval of Window - skew - 2 * slack, however rollbacks are delayed, fail or interleave. |
| `RateLimitRuns.ExactWindowBound` | ratelimit/ratelimit.go:125-186 | With clocks in order and exact scores no window (T - Window, T] ever holds more than Limit admitted requests. |
| `RateLimitRuns.BoundIsTight` | ratelimit/ratelimit.go:125-186 | For every positive limit and every window, skew and slack some run admits limit + 1 requests in an interval one unit longer, so the bound cannot be improved. |
| `RateLimitRuns.RunKeepsScored` | ratelimit/ratelimit.go:45-49 | In every reachable state each entry has the score of its name and each admission the time in its name. |
| `RateLimitRuns.LeftoversAreTheOnlyError` | ratelimit/ratelimit.go:150-176 | In every reachable state a decision counts two kinds of entries: of the admitted requests all that were stamped within the window and only such as score within it (or before 1970), up to skew and slack; and the denied ones not rolled back. |
| `RateLimitRuns.ExactCount` | ratelimit/ratelimit.go:150-156 | With exact scores and ordered clocks past 1970 the admitted entries counted lie between the log's requests stamped and those scored after now - Window; without leftovers and with single requests the decision is exactly the log's. |
| `RateLimitRuns.RollbackFrees` | ratelimit/ratelimit.go:165-176 | From any state of any run all denied requests may be rolled back, and every decision then counts admitted requests alone, the same ones as before. |
| `RateLimitLog.LimiterRefinesLog` | ratelimit/ratelimit.go:125-210 | Over every serial history with successful rollbacks, any gaps in batch numbers and expiring keys, all decisions, Remaining values and counts are those of an untrimmed log of admissions, under the condition of LimiterRefinesLogIff. |
| `RateLimitLog.LimiterRefinesLogIff` | ratelimit/ratelimit.go:125-210 | All serial histories of a family (earliest stamp, largest batch, keys expiring or not) agree with the log if and only if nothing can be admitted, or no stamp is before 1970 and, if keys expire, no admitted batch is longer than one request (than 1 - Window for a negative Window). |
| `RateLimitReplay.Replay` | ratelimit/ratelimit.go:36-210 | The limiter object, asked call after call while other keys share its counter and keys expire, returns all the answers of the untrimmed log, under the condition of LimiterRefinesLogIff. |
| `RateLimitLog.ExpiryForgets` | ratelimit/ratelimit.go:145 | For every limit and window that admit a longer batch, expiry on time makes the limiter forget a request the log still counts, and admit a full batch beside it. |
| `RateLimitLog.NegativeScoresStay` | ratelimit/ratelimit.go:135 | The trim starts at score 0: for every positive limit and every window a request admitted before 1970 is counted for ever, and a full batch denied that the log allows. |
| `Breaker.Normalize` | circuitbreaker/circuitbreaker.go:70-79 | Each positive setting is kept, each other one becomes 5 failures, 30 s or 3 trial calls, and all end up positive. |
| `Breaker.CircuitBreaker.constructor` | circuitbreaker/circuitbreaker.go:70-94 | A new breaker is closed with all counters at zero and normalized settings. |
| `Breaker.CircuitBreaker.BeforeRequest` | circuitbreaker/circuitbreaker.go:107-136 | Admits and moves the state exactly as the step function BreakerRuns runs on. |
| `Breaker.CircuitBreaker.AfterRequest` | circuitbreaker/circuitbreaker.go:138-147 | Reports one outcome to the state, failure or success. |
| `Breaker.CircuitBreaker.OnSuccess` | circuitbreaker/circuitbreaker.go:149-161 | A success clears a closed breaker's streak, counts towards closing a half-open one, and leaves an open one alone. |
| `Breaker.CircuitBreaker.OnFailure` | circuitbreaker/circuitbreaker.go:163-176 | A failure extends the streak and opens at maxFailures, reopens a half-open breaker, and leaves an open one alone. |
| `Breaker.CircuitBreaker.Reset` | circuitbreaker/circuitbreaker.go:213-217 | Closes and zeroes the counters from any state. |
| `BreakerRuns.RunKeepsInv` | circuitbreaker/circuitbreaker.go:97-217 | The invariant of every run: counters match the history, probes are accounted for, openings are timed. |
| `BreakerRuns.NeverWedged` | circuitbreaker/circuitbreaker.go:107-203 | In every reachable half-open state the next call is admitted or at least two probes of this very episode are still running. |
| `BreakerRuns.EpisodeBound` | circuitbreaker/circuitbreaker.go:117-133 | Every half-open episode of every run admits at most maxHalfOpenCalls + 1 calls. |
| `BreakerRuns.EpisodeBoundIsTight` | circuitbreaker/circuitbreaker.go:117-133 | Under every configuration some run has maxHalfOpenCalls + 1 calls in one episode. |
| `BreakerRuns.CountersAreTrue` | circuitbreaker/circuitbreaker.go:149-203 | Closed: failures is the present streak and below maxFailures. Open and half-open: it is maxFailures. Half-open: successes is what arrived, and no failure did. |
| `BreakerRuns.ClosingTakesSuccesses` | circuitbreaker/circuitbreaker.go:149-161 | A half-open episode closes only on a success, after exactly maxHalfOpenCalls arrivals and no failure. |
| `BreakerRuns.LeftoverSuccessCloses` | circuitbreaker/circuitbreaker.go:154-158 | For every timeout, a run in which a call admitted before the breaker opened closes it while its only probe still runs. |
| `BreakerLeftovers.EpisodeIsOwnIff` | circuitbreaker/circuitbreaker.go:107-161 | When a call turns an open breaker half-open: in every continuation all that arrives in the episode is its own, if and only if nothing else is in flight at that moment. |
| `BreakerLeftovers.LeftoverCounts` | circuitbreaker/circuitbreaker.go:154-158 | Any call still out at that moment can return first, and its success then closes the breaker or counts towards it. |
| `BreakerLeftovers.ClosingIsOwn` | circuitbreaker/circuitbreaker.go:149-161 | An episode that began with nothing else in flight closes on exactly maxHalfOpenCalls successes of its own probes. |
| `BreakerRecovery.Recoverable` | circuitbreaker/circuitbreaker.go:107-203 | From every reachable state, whatever is in flight, some continuation without Reset closes the breaker again. |
| `BreakerRuns.NoAdmissionWithinTimeout` | circuitbreaker/circuitbreaker.go:115-127 | Without a Reset no call is admitted within timeout of an opening, whatever the mode is by then. |
| `Backoff.NewRetryConfig` | kafka/retry.go:30-46 | Each positive setting is kept, each other one becomes 5 retries, 100 ms or 30 s. |
| `Backoff.CalcBackoff` | kafka/retry.go:50-62 | The loop, with int64 doubling that wraps, computes Calc. |
| `Backoff.CalcIsIdeal` | kafka/retry.go:48-62 | Calc is min(backoffMin * 2^n, backoffMax) for every n if and only if backoffMin <= backoffMax and no doubling up to the cap overflows. |
| `Backoff.CapsBelow2Pow62` | kafka/retry.go:50-62 | With backoffMin <= backoffMax < 2^62 the closed form holds and stays between the two. |
| `Backoff.LoopWraps` | kafka/retry.go:54-60 | Otherwise some attempt returns a negative delay where the cap was due. |
| `Backoff.BoundedRetryDelay` | grpc/client.go:508-538 | For all positive inputs the delay is within [c / 2, c], c = min(base * 2^(attempt - 1), maximum), and nothing leaves int64 on the way. |
| `KafkaErrors.DispositionMeans` | kafka/kafka.go:97-132 | However deeply an error is wrapped: held if and only if some link of its chain is non-committable, skipped if and only if none is and some link is an unmarshal error, retried otherwise. |
| `KafkaRetry.SendToDLQUntilSuccess` | kafka/retry.go:115-213 | The dead-letter loop, redactors included, does exactly what its script function says. |
| `KafkaRetry.HandleWithRetry` | kafka/retry.go:246-357 | The retry loop with both counters and the retained-offset flag does exactly what its script function says. |
| `KafkaRetryRuns.RetryBudget` | kafka/retry.go:246-357 | (true, err) if and only if maxRetries + 1 ordinary failures were seen and nothing was cancelled, with exactly one acknowledged record made from the redactors' answers when dead-lettering is on; (true, nil) only on success or a skipped message; (false, err) if and only if cancellation was observed. |
| `KafkaRetryRuns.HeldIsNeverCommitted` | kafka/retry.go:266-294 | A message is committed only on success or on an error no link of which is non-committable, and with an error to report only if no link is an unmarshal error either. |
| `KafkaRetryRuns.GaugeIsBalanced` | kafka/retry.go:120-182 | The retained-offset gauge is 0 or 1 after every step of both loops and 0 on every return. |
| `KafkaRetryRuns.DelaysFollowBackoff` | kafka/retry.go:128-181 | The k-th ordinary, held and dead-letter retry each waits calcBackoff(k), whichever step failed. |
| `KafkaRetryRuns.RawBytesNeverLeak` | kafka/retry.go:184-213 | With both redactors set, nothing any run does depends on the bytes of the message, other than through the redactors' answers. |
| `KafkaRedaction.SentIsRedacted` | kafka/retry.go:79-213 | Every record sent in any run, acknowledged or not, carries per part the redactor's answer of one turn (a value that is valid JSON), or the message's own bytes where there is no redactor, with the last error the handler returned and the retry count. |
| `KafkaRetryDecision.FirstDecisiveTurn` | kafka/retry.go:246-357 | The retry loop goes on exactly until the first turn that settles the message, is cancelled, or is one ordinary failure too many, and returns what that turn demands; held failures never end it. |
| `KafkaRetryDecision.FirstDecisiveDlqTurn` | kafka/retry.go:115-182 | The dead-letter loop goes on exactly until the first acknowledged or cancelled turn and ends accordingly. |
| `KafkaConsume.Consume` | kafka/kafka.go:586-625 | The fetch/handle/commit loop does exactly what its script function says. |
| `KafkaConsume.NoMessageLost` | kafka/kafka.go:586-625 | In every run, when an offset is committed that message and all fetched before it were resolved, and nothing is fetched after an unresolved one. |
| `KafkaConsume.EveryMessageIsFinished` | kafka/kafka.go:586-625 | Messages are taken in order, each is handled to its end, and each that was not cancelled has its commit tried before the next fetch. |
| `KafkaConsume.NoHeldMessageIsCommitted` | kafka/kafka.go:586-625 | In every run an offset is committed only right after its message was handled to an end that no non-committable error, however wrapped, is part of. |
| `KafkaConsume.OnlyCancellationEnds` | kafka/kafka.go:586-625 | The loop goes around fetch errors and settled messages for ever and returns exactly on the first turn that sees cancellation. |
| `KafkaTopics.QualifyIdempotent` | kafka/kafka.go:192-199 | Qualifying a qualified name changes nothing, for all topics and suffixes. |
| `KafkaTopics.QualifyMeans` | kafka/kafka.go:192-199 | The result is the trimmed topic, followed by the trimmed suffix unless the topic shows it already or one of them is blank; a name that is not blank always shows the suffix. |
| `KafkaTopics.TrimSpaceCuts` | kafka/kafka.go:192-199 | Trimming takes white space off both ends and nothing else. |
| `KafkaTopics.DlqNameIsQualified` | kafka/kafka.go:497-541 | The derived ".dlq" name is already qualified if and only if the topic is not blank, or the suffix is blank or part of ".dlq". |
| `KafkaTopics.Producer.constructor` | kafka/kafka.go:246-277 | The producer's topic and its writer's topic are the same qualified name. |
| `KafkaTopics.Producer.Route` | kafka/kafka.go:342-368 | A publish goes to the qualified name, or to the bound topic for a blank name; a keyed producer refuses exactly the other topics; cached writers are kept. |
| `KafkaTopics.Producer.WriterFor` | kafka/kafka.go:370-395 | Each qualified name has one writer, created once and filed under the name it writes to. |
| `KafkaTopics.NewDlqProducer` | kafka/kafka.go:497-541 | The consumer's dead-letter topic is its dead-letter producer's topic for every non-blank topic. |
| `KafkaOptions.ConsumerBuilder.constructor` | kafka/kafka.go:497-541 | Applying any option list in order and finalizing gives the redactors of the last options, with dead-lettered decode errors overriding all others. |
| `KafkaOptions.ConsumerBuilder.FinalizeOptions` | kafka/kafka.go:563-578 | Dead-lettering decode errors forces its own value redactor, or one that refuses, and drops keys. |
| `KafkaOptions.MalformedEvents` | kafka/kafka.go:640-650 | Malformed events are skipped by default; once any option asks for it they are retried and dead-lettered with both redactors in force, whatever the order of options. |
| `KafkaOptions.RedactorsInForce` | kafka/kafka.go:463-541 | For any option list the redactors in force are the last value and the last key redactor given, if not nil, and both once decode errors are dead-lettered. |
| `Jwks.JwksCache.RefreshNow` | jwt/jwks.go:164-191 | The attempt is recorded in any case; keys and their time change together and only on success. |
| `Jwks.JwksCache.PublicKey` | jwt/jwks.go:205-238 | A lookup refreshes once, exactly when the key is missing or stale and the last attempt is more than the interval ago, and returns a key exactly when its set is fresh, telling unknown from stale. |
| `JwksRuns.RunKeepsInv` | jwt/jwks.go:145-238 | The invariant of every interleaving of lookups and background refreshes. |
| `JwksRuns.AttemptsAreSpaced` | jwt/jwks.go:205-238 | In every interleaving on-demand attempts i < j start more than (j - i) * minRefetchInterval apart. |
| `JwksRuns.ReturnedKeysAreFresh` | jwt/jwks.go:199-238 | Every answer is that of one installed key set: a returned key is in it and it was at most maxStale old at a moment inside the call; an unknown one is not in it; a stale one is, and it was older. |
| `JwksRuns.CacheIsOneSuccess` | jwt/jwks.go:164-191 | In every interleaving keys and lastFetch are those of the latest fetch that succeeded, as read off the events: failures change neither and successes never mix. |
| `JwksProgress.NobodyGivesUpIdly` | jwt/jwks.go:205-238 | In every interleaving, a lookup that ends without a key: some attempt, its own or another's, was recorded between minRefetchInterval before it began and its end, or a key set was installed while it ran. |
| `JwksProgress.InstalledMeanwhile` | jwt/jwks.go:211-234 | For all intervals, a run that shows the last alternative is needed: a key set lands while the lookup waits for the lock and goes stale before its last look. |
| `JwksSolo.LoneLookup` | jwt/jwks.go:205-238 | A lookup whose steps run uninterrupted, from any reachable cache, with any clock readings and fetch result, leaves the cache and gives the answer that PublicKey promises. |
| `Base64Url.RoundTrip` | jwt/jwks.go:267-305 | Decoding unpadded base64url undoes encoding, for every byte string. |
| `Base64Url.EncodeDenotes` | jwt/jwks.go:295-305 | The text denotes in base 64 the number the bytes denote in base 256, shifted by the bits that fill up its last symbol. |
| `Base64Url.AlphabetOrder` | jwt/jwks.go:267-305 | Each symbol is the one at its digit's place in the table of section 5 of RFC 4648. |
| `Base64Url.DecodeAcceptsIff` | jwt/jwks.go:267-275 | A text without line breaks decodes if and only if all of it is in the alphabet and its length is not 1 modulo 4. |
| `Base64Url.BreaksAreIgnored` | jwt/jwks.go:267-275 | A line break anywhere in a text does not change what it decodes to. |
| `JwkCodec.Exponent` | jwt/jwks.go:276-279 | The exponent loop returns the big-endian value modulo 2^64 as a signed integer, for every byte string. |
| `JwkCodec.ExponentIsBigEndian` | jwt/jwks.go:276-279 | Wrapping at each shift or once at the end is the same. |
| `JwkCodec.BytesRoundTrip` | jwt/jwks.go:295-305 | The shortest big-endian bytes of a number denote it. |
| `JwkCodec.BytesAreShortest` | jwt/jwks.go:295-305 | They start with no zero byte. |
| `JwkCodec.BitLenMeans` | jwt/jwks.go:284-289 | The bit length is at most k if and only if the number is below 2^k. |
| `JwkCodec.KeyRoundTrip` | jwt/jwks.go:267-305 | Parsing an encoded key returns it if and only if its exponent is at least 2 and its modulus is below 2^8192. |
| `JwkCodec.ParseMeans` | jwt/jwks.go:267-291 | For any texts: which of the four errors is reported, in which order of precedence, and otherwise the key by its big-endian values. |
| `JwkCodec.ParseJWKS` | jwt/jwks.go:240-265 | The document loop returns the key set of ParseKeys, its first error, or an error for no RSA key. |
| `JwkCodec.ParseKeysMeans` | jwt/jwks.go:240-265 | A document is accepted if and only if all its RSA keys parse, and holds a kid if and only if some RSA key has it, with the value of the last one. |
| `JwkCodec.PublishedKeyParses` | jwt/signer.go:175-177 | The document an issuer publishes resolves to its own key under its own kid. |
| `GrpcRetry.MethodAllowsRetry` | grpc/client.go:490-506 | True if and only if all methods may be retried or an entry is the method's name or a service wildcard above it. |
| `GrpcRetry.Retry` | grpc/client.go:385-484 | The loop makes 1 to budget + 1 attempts, each but the last an Unavailable whose wait ran out, ends for one of three stated reasons with that outcome, and waits within the bounded delays. |
| `GrpcRetry.RetriedIsUnique` | grpc/client.go:412-482 | These conditions leave only one trace and one result for given answers of invoker and timers. |
| `GrpcClient.BreakerRegistry.GetOrCreate` | grpc/client.go:547-572 | A registered breaker is returned as it is, a missing one is created closed with 5 failures, 30 s and 3 trial calls; no other entry changes. |
| `GrpcClient.BreakerRegistry.ResetBreaker` | grpc/client.go:675-683 | Closes the target's breaker if there is one and changes nothing else. |
| `GrpcClient.Execute` | grpc/client.go:588-603 | A rejected call makes no attempt and leaves the breaker alone; an admitted one makes one retry loop's attempts and then reports once whether its outcome blames the target. |
| `GrpcRuns.OneBreakerPerTarget` | grpc/client.go:547-572 | Under every interleaving of the registry's locks two calls share a breaker if and only if they share a target, and every breaker is the registered one. |
| `GrpcRuns.CallAccounting` | grpc/client.go:218-222 | In every interleaving of calls of differently configured clients: a rejected call leaves no trace; a returned one has 1 to maxRetries + 1 attempts, later ones only after Unavailable on an allowed method, followed by exactly one outcome report, that of the result its caller got. |
| `GrpcRuns.RunKeepsAccounted` | grpc/client.go:385-484 | At every moment of every run the wire log of each call is what its position in the chain accounts for. |
| `GrpcRuns.RunKeepsRegistered` | grpc/client.go:541-572 | The registry, the breakers' names and the callers' breakers agree in every reachable state. |
| `GrpcRuns.EveryBreakerRuns` | grpc/client.go:588-603 | What reaches any one breaker, resets included, is a run of BreakerRuns, and in flight there are exactly the calls between admission and return. |
| `GrpcRuns.ResetCloses` | grpc/client.go:675-683 | A reset closes the target's breaker from any state of any run and touches no other one and no call. |
| `GrpcRuns.TargetNeverWedged` | grpc/client.go:588-603 | When a target's half-open breaker turns a call away, at least two calls to that target are past it. |
| `GrpcRuns.AdmittedCallsReturn` | grpc/client.go:385-484 | From any state of any run, an admitted call's own steps take it to its return after at most 2 * budget + 2 of them in all, whatever invoker and timers answer. |
| `GrpcRuns.FewOwnSteps` | grpc/client.go:412-482 | No interleaving gives an admitted call more than 2 * budget + 2 steps, or more than 2 * budget + 1 without having returned. |
| `GrpcBlame.HealthyTargetStaysClosed` | grpc/client.go:574-585 | In every interleaving, while no call to a target returns Unavailable, DeadlineExceeded, Internal, Unknown or DataLoss, its breaker is closed with no failure counted and admits every call. |
| `GrpcBlame.FiveFailuresOpen` | grpc/client.go:564-585 | If the first five calls a new breaker hears from all returned one of those codes, it is open right after the fifth. |
| `GrpcBlame.RunKeepsReported` | grpc/client.go:588-603 | Every outcome a breaker was told is that of a call that returned to it, and a failure exactly for those five codes. |
| `Replicas.Healthy` | postgres/replica_pool.go:164-175 | The usable replicas are exactly those that are healthy and within the lag limit. |
| `Replicas.ReplicaPool.HealthyReplicas` | postgres/replica_pool.go:164-175 | The loop collects the usable replicas in configuration order. |
| `Replicas.ReplicaPool.LeastLagReplica` | postgres/replica_pool.go:178-198 | The first replica of minimal lag, or none of none. |
| `Replicas.ReplicaPool.Reader` | postgres/replica_pool.go:107-138 | Where a read goes under each strategy and fallback, with int64 counter and truncated remainder; only counted strategies move the counter. |
| `Replicas.ReplicaPool.CheckReplicasHealth` | postgres/replica_pool.go:216-259 | After a check a replica is usable if and only if it answered and its lag is within the limit or unmeasured; one that did not answer keeps its lag. |
| `Replicas.HealthyStayDistinct` | postgres/replica_pool.go:164-175 | Usable replicas of distinct pools have distinct pools. |
| `Replicas.HitsAreEven` | postgres/replica_pool.go:125-127 | Any k * m consecutive counter values leave every remainder modulo m exactly k times. |
| `Replicas.RoundRobinIsFair` | postgres/replica_pool.go:125-127 | From any counter, k rounds over m unchanged usable replicas read each exactly k times. |
| `Replicas.RandomIsFair` | postgres/replica_pool.go:128-131 | So does the "random" strategy whenever 31 does not divide m, below int64 overflow. |
| `Replicas.RandomIsFairIff` | postgres/replica_pool.go:128-131 | A round of "random" is even if and only if 31 does not divide m. |
| `Replicas.RandomSkips` | postgres/replica_pool.go:128-131 | When 31 divides m, no number of reads reaches a replica whose position is not a multiple of 31. |
| `Replicas.ReadPanicsIff` | postgres/replica_pool.go:124-137 | For every counted strategy, counter and number of usable replicas a read indexes out of range if and only if the int64 number it picks by is negative and not a multiple of that number; so never with a single replica. |
| `Replicas.FirstWrap` | postgres/replica_pool.go:125-131 | Counting from zero that number first turns negative at the 2^63-th read for round robin, and for "random" once the counter passes 2^63 / 31. |
| `Tokens.ClaimsRoundTrip` | jwt/jwt.go:85-102 | Claims survive JSON with nil and empty organization lists told apart; only an empty role list becomes none. |
| `Tokens.GeneratedIsGood` | jwt/jwt.go:145-213 | Both tokens of a fresh pair speak for the caller and context they were minted for, under the issuer's name and key id; the refresh token has no roles, the access token those of the context. |
| `Tokens.RefreshedIsGood` | jwt/jwt.go:252-279 | Any accepted refresh keeps identity and context and drops platform roles. |
| `Tokens.ChainKeepsContext` | jwt/signer.go:80-160 | Along every finite chain of refreshes, Manager or Signer, all of that still holds, and no token after the first pair carries platform roles. |
| `Tokens.AcceptedIff` | jwt/jwt.go:216-261 | Over all pairs of issuers: a token of the right kind is accepted if and only if it was minted with the very same sort of key, under a name the verifier accepts, and its deadline is ahead; one of the other kind never is. |
| `Tokens.RefreshWorksIff` | jwt/signer.go:119-160 | Any issuer refreshes a pair if and only if it holds its key, accepts its name and the refresh token's expiry, cut to the second, is ahead; an access token never refreshes. |
| `Tokens.ChainKeepsKey` | jwt/signer.go:119-160 | Every issuer of a completed chain holds the key of the first. |
| `Tokens.CallerSurvives` | grpc/server.go:534-546 | What a handler sees of the caller, after adapter and interceptor, is field by field what the first pair was minted for; roles only from the first access token. |
| `Tokens.OrgDecisionSurvives` | grpc/orgauth/orgauth.go:62-96 | Through minting, refreshes, adapter, interceptor and live role lookup, the organization check decides by the context of the first pair. |
| `IpRange.IpInRange` | security/url_validator.go:280-316 | The two passes with their flags are byte-box membership, at any length, and false for unequal lengths. |
| `IpRange.RangeTestIsExactIff` | security/url_validator.go:279-316 | That is big-endian interval membership for all addresses if and only if the range is an equal prefix, one byte interval and a 0..255 suffix, or is empty. |
| `IpRange.NotEveryRangeIsExact` | security/url_validator.go:279-316 | A range and an address inside it that the test turns away. |
| `IpRange.InSomeBlock` | security/url_validator.go:233-258 | The loop over the six ranges is membership of the address as a number in six explicit intervals (three of them section 3 of RFC 1918). |
| `IpRange.IsPrivateIP` | security/url_validator.go:226-277 | For byte strings of any length: panics exactly on the empty one and on the single byte 0xfe; else true of nil and of exactly the addresses that, as numbers, are in a listed IPv4 interval (mapped ones too), have a prefix fe80::/10 or fc00::/7, or are ::1. |

## Left out

- The Redis, Kafka, HTTP, gRPC and Postgres clients: they are abstract state and scripted answers. A Redis transaction is taken to be atomic, and a key not to expire within a window of its last transaction (the client library sends whole seconds, so windows with a fraction of a second are outside this).
- float64 scores: rounding is any function off by at most `slack`; that float64 stays within a given slack is not derived.
- `Allow`, the tiers of `MultiLimiter`, `Reset`, the deletion of keys of the wrong type and the pass on read-only replicas in the rate limiter: the last three lift the window bound on purpose.
- Requests for zero or a negative number of permits, which Redis or slice allocation refuse.
- Uniqueness of members across processes: the batch counter is per process, so runs take it as a condition on each transaction.
- LimiterRefinesLog: is about one caller at a time with a clock that does not run backwards; RateLimitRuns has the rest.
- A panic in the function a breaker protects: its completion is then never reported, and runs take every end to come from a return.
- NoAdmissionWithinTimeout: is about the time since the last Reset; a Reset closes the breaker at once by design.
- RetryBudget, GaugeIsBalanced, DelaysFollowBackoff, NoMessageLost and EveryMessageIsFinished: are stated for maxRetries of at least 0, which NewRetryConfig guarantees.
- Joined errors (a chain has one cause per link), the text of wrapped errors, the event envelope of a dead-letter record other than key, value, error and retry count, and publishing with keys or batches.
- Consumer start offsets, group names, `MultiConsumer`, and the closing of readers and writers.
- Logging, tracing, audit and metrics, other than the retained-offset gauge.
- Timers, tickers, random sources and network results: they are parameters. Durations are int64 only where overflow matters.
- The JWKS URL check, response size limit and HTTP handling; JSON, PEM and signatures. A token carries its body and its key, and strings are taken to be valid UTF-8.
- `Validator`, the JWKS-based verifier with its HS256 opt-in: the cache it reads from is modelled, its choice of algorithm is not.
- `NewManager` and `NewSigner`: key parsing and length checks; time-to-live defaults.
- The choice of total timeout in the retry interceptor: when and how the context ends is an answer of the wait.
- GetOrCreate and Execute: run without interruption; GrpcRuns has the interleavings.
- PublicKey: runs without interruption; JwksRuns has the interleavings, and LoneLookup joins the two.
- Read-after-write routing, statistics and transactions of the replica pool; a counter that starts above zero or has wrapped is covered by Reader, fairness is stated below int64 overflow.
- URL parsing, DNS resolution, host lists and redirects of the URL validator.
- config, validation, i18n, health, ws, TLS, HTTP middleware, migrations and pushpublisher: plumbing or single-branch claims.
