# Admission-stack proofs for the request router

The router sends every `/v1/*` request through one stack per provider. From the outside in,
the layers are the circuit breaker, the adaptive 429 gate, the cold-start gate with its
time-to-first-token backpressure controller, the upstream pool, the shared host limiter and
the member limiter. This project models that stack, the selection algorithms below it, and
four loop algorithms beside it, and proves what each of them promises over every input, every
run or every reachable state.

Check everything with `dafny verify dfyconfig.toml`.

| file | models |
|---|---|
| `GoInts.dfy`, `Totals.dfy` | 64-bit wrap-around and truncating division; sums over records that change one at a time |
| `TokenBucket.dfy` | the lazily refilled bucket and its timers, in integer nanoseconds |
| `ColdGate.dfy` | the cold-start gate's locked operations, as a class |
| `ColdGateHistory.dfy` | whole runs of one gate against its full history |
| `ColdGateQueue.dfy` | the gate with its queue, broadcasts, timers and reservations |
| `LimiterStack.dfy` | pool, host limiters and member limiters as one step system |
| `CircuitBreaker.dfy`, `ThrottleGate.dfy`, `Backpressure.dfy` | each controller as a class, and its state as a function of its history |
| `Selection.dfy`, `Balancing.dfy`, `UpstreamConfig.dfy` | the weighted ring, least-loaded choice, and the configuration they rely on |
| `EnvRefs.dfy` | environment references in the configuration file |
| `InFlightPeak.dfy` | the in-flight gauge and its 60-second peak |
| `SystemLift.dfy` | moving system-role messages into the system block |
| `RejectionReason.dfy` | attributing and counting every 429 |

State that the source updates in place is a class whose methods are proved equal to a pure
step function; the whole-run theorems are about those step functions. Concurrent requests are
step systems in which one step is one critical section or one channel operation, and every
sequence of steps is a run. Clock readings, estimates, hashes, loads, eligibility and upstream
answers are parameters. Where a theorem needs clock readings in lock order (the code reads the
clock before it takes the lock) it says `Ordered`.

## Where the code and its comments disagree

The model follows the code. Each point names the theorem that says when the promise holds and,
where two or more are named, first the run or input at which it fails.

- Cold admissions are not pairwise spaced by the refill interval
  (`pkg/handler/cold-start-gate.go:31-38`): `ColdGateHistory.SpacingIsNotPairwise` gives
  admissions at 0 s, 59 s and 60 s at 2 per minute. `ColdGateHistory.NextIsSpacedIff` says
  exactly after which admissions the next one is a token time away, and
  `ColdGateHistory.ColdSpacing` is the bound that holds for all.
- A bucket left alone long enough stops crediting, because elapsed time times rate is stored
  in 64 bits: `TokenBucket.LongIdleStarves`, `TokenBucket.CreditsRightIff`.
- A rate-blocked waiter does not always wake at the instant the refill would credit it
  (`pkg/handler/cold-start-gate.go:495-497`): `TokenBucket.TimerTooEarly` at 7 per minute,
  `TokenBucket.LongIdleSleepsOn` past 64 bits, `TokenBucket.WakeInstantIff`,
  `TokenBucket.TwoWakesIff`.
- An admission can change a waiter's verdict (`pkg/handler/cold-start-gate.go:458-465`), and so
  can a raised budget, and neither wakes it: `ColdGateQueue.WarmSleeperForgotten`,
  `ColdGateQueue.RaisedBudgetForgotten`, `ColdGateQueue.TurnedAwayIff`,
  `ColdGateQueue.FixedBudgetRun`.
- Above one token per nanosecond a rate-blocked request gets no timer:
  `ColdGateQueue.TooFastForTimers`, `ColdGateQueue.NoLostWakeup`.
- A rate-only cold-start gate does not leave its token count at 0
  (`pkg/handler/cold-start-gate.go:206-212`): `ColdGateHistory.RateOnlyCounts`,
  `ColdGateHistory.CountStaysZeroIff`.
- The live budget is not always at least 1 (`pkg/handler/ttft-backpressure.go:88-89`): a ceiling
  within 8192 of 2^63 wraps to a negative budget in one clean window and switches the admission
  check off: `Backpressure.HugeCeilingDisables`, `Backpressure.BudgetBounds`,
  `Backpressure.GrowthIff`.
- A probe's deferred release can clear a later probe's flag:
  `CircuitBreaker.LateReleaseLetsTwoOut`, `CircuitBreaker.OneProbeIffPrompt`. Carried on, a
  request is forwarded at the very instant of an opening: `CircuitBreaker.LateReleaseLeaks`,
  `CircuitBreaker.QuietIff`, `CircuitBreaker.ProbesApartIff`.
- A request whose client is gone may be handed back once more than the eligible set changed,
  since a cancelled context makes the two index lists differ:
  `LimiterStack.GoneClientBounces`, `LimiterStack.BouncesPaid`, `LimiterStack.BouncesBounded`.
- A request waiting on a full host semaphore does not always find somebody being served; all
  holders may be between two steps: `LimiterStack.NobodyServed`, `LimiterStack.ServedIff`. No
  reachable state is stuck all the same: `LimiterStack.EverythingDrains`.
- The weighted ring is exact only while the eligible weights fit 64 bits, which validation
  does not check: `Selection.HugeWeightsPanic`, `Selection.RingExactIff`.
- Round robin is not always fair across the wrap of its 64-bit counter:
  `Balancing.WrapDisturbs`, `Balancing.RoundRobinFairIff`, `Balancing.LeastServedAlikeIff`.
- A model pool reads live loads twice and can be left without a tie:
  `Balancing.MovingLoadsMayNotTie`, `Balancing.ModelLeastLoaded`.
- Normalizing a provider written in the single-upstream form is refused the second time:
  `UpstreamConfig.NormalizeTwiceRefused`, `UpstreamConfig.NormalizeAgainIff`.
- An upstream's 429 does not always pass unchanged (`pkg/handler/throttle-gate.go:160-164`): a
  recorder keeps only the first header, so informational headers hide it:
  `RejectionReason.EarlyHintsHide429`, `RejectionReason.UpstreamUnchangedIff`. And a 429 whose
  proxy panics while copying the body is answered but not counted:
  `RejectionReason.AbortedIsNotCounted`, `RejectionReason.AddUpIff`.
- JSON `null` passes for an object, a list or a role without an error
  (`pkg/handler/system-lift.go:53-57`): `SystemLift.NullIsNoFault`, `SystemLift.FailsExactly`.

## Model

| member | source | states |
|---|---|---|
| `ColdGate.ColdStartGate.constructor` | pkg/handler/cold-start-gate.go:131-173 | a fresh gate: one token, nothing reserved, the default window when none is configured |
| `ColdGate.ColdStartGate.RefillLocked` | pkg/handler/cold-start-gate.go:474-493 | the in-place refill is the bucket step of the proofs, overflow included |
| `ColdGate.ColdStartGate.RateWaitLocked` | pkg/handler/cold-start-gate.go:500-515 | the wait a blocked request arms |
| `ColdGate.ColdStartGate.TryAdmitLocked` | pkg/handler/cold-start-gate.go:429-466 | verdict and whole new state of one attempt |
| `ColdGate.ColdStartGate.PruneLocked` | pkg/handler/cold-start-gate.go:558-572 | the amortised map walk drops exactly the expired sessions, or does nothing inside the interval |
| `ColdGate.ColdStartGate.Release` | pkg/handler/cold-start-gate.go:600-618 | frees the clamped amount and starts a new broadcast generation |
| `ColdGate.Estimate` | pkg/handler/cold-start-gate.go:587-592 | two sevenths of the body length exactly when that length is below 2^62 |
| `ColdGate.RetryAfterSeconds` | pkg/handler/cold-start-gate.go:403-412 | the wait in whole seconds, 1 below one second and 60 from a minute on |
| `TokenBucket.LedgerTake` | pkg/handler/cold-start-gate.go:474-493 | one more admission keeps the running account of time against tokens, with the anchor at or before now |
| `TokenBucket.LedgerSpacing` | pkg/handler/cold-start-gate.go:429-493 | the account in plain nanoseconds |
| `TokenBucket.ArmedWait` | pkg/handler/cold-start-gate.go:500-547 | a rate-blocked request gets a wait in (0, p] exactly for rates up to one per nanosecond |
| `TokenBucket.CreditsExactly` | pkg/handler/cold-start-gate.go:474-493 | a token is credited if and only if a whole token's time has passed, while the product fits 64 bits |
| `TokenBucket.CreditsRightIff` | pkg/handler/cold-start-gate.go:474-493 | an attempt finds a token exactly when a token's time has passed, if and only if the product fits 64 bits or is stored as a token's worth |
| `TokenBucket.GapIff` | pkg/handler/cold-start-gate.go:474-493 | after an admission the next token is at least p away if and only if the unspent stored time is below rate + 60e9 % rate |
| `TokenBucket.GapInTime` | pkg/handler/cold-start-gate.go:474-493 | the same as 0 ns or 1 ns behind the clock, while the product fits 64 bits |
| `TokenBucket.LongIdleStarves` | pkg/handler/cold-start-gate.go:474-493 | the overflow occurs: 107 idle days at 1000 per minute |
| `TokenBucket.WakeInstantIff` | pkg/handler/cold-start-gate.go:495-547 | the timer fires at the first crediting instant if and only if the rate divides a minute (or p is 1 ns and has passed) while the product fits 64 bits, and past that if and only if the stored product is in [60e9 % rate, rate + 60e9 % rate) |
| `TokenBucket.TimerTooEarly` | pkg/handler/cold-start-gate.go:495-515 | at 7 per minute it fires 1 ns early |
| `TokenBucket.TwoWakesIff` | pkg/handler/cold-start-gate.go:500-547 | exactly when the first on-time wakeup, and when one of the first two, finds a token: of two always while the product fits 64 bits, and past that if and only if the stored product is at least 60e9 - 2p*rate |
| `TokenBucket.LongIdleSleepsOn` | pkg/handler/cold-start-gate.go:474-515 | after 107 idle days at 1000 per minute neither does |
| `ColdGateHistory.WarmByHistory` | pkg/handler/cold-start-gate.go:434-457 | a request is warm if and only if its id was admitted less than a window ago in the full history |
| `ColdGateHistory.PruningInvisible` | pkg/handler/cold-start-gate.go:558-572 | on every run the pruning gate decides, charges and refills like one that never forgets |
| `ColdGateHistory.VerdictExactly` | pkg/handler/cold-start-gate.go:429-466 | on every run each verdict follows from the history: warm by an admission inside the window, else over budget when a positive budget has no room beside others' charges, else over the rate without a token, else cold and counted |
| `ColdGateHistory.MapStaysSmall` | pkg/handler/cold-start-gate.go:558-572 | after every attempt no session is remembered longer than the window and an eighth of it (at least 1 s), and the map is walked again only after that eighth |
| `ColdGateHistory.BucketLedger` | pkg/handler/cold-start-gate.go:429-493 | every run keeps the account of its cold admissions, and the refill anchor never passes the clock |
| `ColdGateHistory.ColdSpacing` | pkg/handler/cold-start-gate.go:429-493 | the n-th cold admission is at least (n-1)p after the first; any n consecutive span at least (n-2)p - 1 ns |
| `ColdGateHistory.SpacingIsNotPairwise` | pkg/handler/cold-start-gate.go:31-38 | a run at 2 per minute whose neighbouring admissions are 1 s apart |
| `ColdGateHistory.NextIsSpacedIff` | pkg/handler/cold-start-gate.go:429-493 | on every run, the next cold admission is at least p away however the run goes on, if and only if the bucket's unspent time is below rate + 60e9 % rate |
| `ColdGateHistory.CountStaysZeroIff` | pkg/handler/cold-start-gate.go:440-451 | whatever the budgets, until the first release the count stays 0 if and only if every charged estimate is 0 |
| `ColdGateHistory.RateOnlyCounts` | pkg/handler/cold-start-gate.go:206-212 | without a budget, whatever the rate, the first request brings the count to its estimate |
| `ColdGateQueue.RunKeeps` | pkg/handler/cold-start-gate.go:289-368 | the invariant of gate, queue, sleepers, timers and reservations over every run |
| `ColdGateQueue.LedgerExact` | pkg/handler/cold-start-gate.go:440-451 | the in-flight count is the sum of outstanding reservations, the clamp never bites, the queue counter is the slots held and at most 32 |
| `ColdGateQueue.ArrivalQueuesIff` | pkg/handler/cold-start-gate.go:289-309 | on every run a blocked arrival sleeps with a slot if and only if fewer than 32 requests hold one, and is turned away without one if and only if 32 do |
| `ColdGateQueue.WokenRetries` | pkg/handler/cold-start-gate.go:323-347 | a sleeper retries exactly when its broadcast is over or its timer has run out, gets the verdict of an attempt at that instant, and is let in or sleeps again |
| `ColdGateQueue.SlotGivenBack` | pkg/handler/cold-start-gate.go:310-368 | a sleeper that gives up and a request let in after waiting give their slot back and touch nothing else |
| `ColdGateQueue.ReleaseFrees` | pkg/handler/cold-start-gate.go:600-618 | a release frees exactly its reservation and ends the broadcast |
| `ColdGateQueue.ReleasedExactlyOnce` | pkg/handler/cold-start-gate.go:600-618 | over every run, charged = freed + in flight, and reservations = releases + requests still holding one |
| `ColdGateQueue.OneHolderOverCeiling` | pkg/handler/cold-start-gate.go:440-451 | over every run with budgets in [1, ceiling] the count exceeds the ceiling only with exactly one holder |
| `ColdGateQueue.ControlledRun` | pkg/handler/cold-start-gate.go:261-271 | so it does under the backpressure controller, and is then that one estimate |
| `ColdGateQueue.TurnedAwayIff` | pkg/handler/cold-start-gate.go:429-466 | on every run, whatever the budgets, a budget-blocked sleeper no broadcast has reached would be warm if and only if its id was admitted meanwhile, and else be turned away if and only if the budget is still too small, which it is unless raised |
| `ColdGateQueue.FixedBudgetRun` | pkg/handler/cold-start-gate.go:440-443 | with a fixed budget such a sleeper still fails the budget test, so its verdict is `Warm` or `OverBudget` by its id's history, and the count exceeds the budget only with exactly one holder |
| `ColdGateQueue.WarmSleeperForgotten` | pkg/handler/cold-start-gate.go:458-465 | a fixed-budget run whose unwoken sleeper would be warm |
| `ColdGateQueue.RaisedBudgetForgotten` | pkg/handler/cold-start-gate.go:289-347 | a run whose unwoken sleeper would fit the raised budget |
| `ColdGateQueue.NoLostWakeup` | pkg/handler/cold-start-gate.go:289-347 | whatever the budget and the clock do: an idle gate leaves no budget-blocked sleeper unwoken, and every other budget-blocked one is woken or will be by a release still to come; with an ordered clock a rate-blocked one has a timer if and only if the rate is at most 60e9 |
| `ColdGateQueue.TooFastForTimers` | pkg/handler/cold-start-gate.go:529-547 | above 60e9 per minute a sleeper is left with neither timer nor reservation |
| `LimiterStack.RunKeeps` | pkg/handler/concurrency-limiter.go:219-317 | the invariant of counters, phases, outcomes and bounces over every run |
| `LimiterStack.SlotsExact` | pkg/handler/concurrency-limiter.go:219-317 | every semaphore and waiter count equals the requests holding it and stays within its cap |
| `LimiterStack.HostQueuesIff` | pkg/handler/host-limiter.go:78-96 | in every reachable state a request at its host queues if and only if the host has a cap and exactly that many hold a slot |
| `LimiterStack.HostSlotIff` | pkg/handler/host-limiter.go:78-96 | a queued one gets a slot if and only if fewer do |
| `LimiterStack.MemberQueuesIff` | pkg/handler/concurrency-limiter.go:219-229 | a request at its member queues if and only if the member has a cap and exactly that many are served |
| `LimiterStack.MemberSlotIff` | pkg/handler/concurrency-limiter.go:276-280 | a queued one is served if and only if fewer are |
| `LimiterStack.WaitEnds` | pkg/handler/concurrency-limiter.go:281-305 | a queued request can always time out, which refuses it, and is dropped if and only if its client is gone |
| `LimiterStack.SelectsEligible` | pkg/handler/upstream-pool-handler.go:124-140 | a request at the top of the loop reads the current list and comes to exactly the eligible members, or to the first when there is none or the client is gone |
| `LimiterStack.WorldMoves` | pkg/handler/upstream-pool-handler.go:211-224 | a new request enters connected and unanswered; a changed list is there at once, for its pool alone |
| `LimiterStack.NoDeadlock` | pkg/handler/host-limiter.go:78-96 | whoever waits on a full host, some holder is being served or can move by itself, and one is served exactly if not all can; on a full member, one is being served there |
| `LimiterStack.ServedIff` | pkg/handler/host-limiter.go:78-96 | on every host of every reachable state somebody is being served if and only if some holder cannot move by itself |
| `LimiterStack.NobodyServed` | pkg/handler/concurrency-limiter.go:219-317 | a run with a full host, a waiter, and nobody served |
| `LimiterStack.EverythingDrains` | pkg/factory/factory.go:551-573 | from every reachable state all requests can finish with no timeout, disconnect or hand-back, the connected ones forwarded |
| `LimiterStack.OneOutcome` | pkg/handler/upstream-pool-handler.go:124-167 | across any number of re-selections a request has at most one outcome, exactly one when done, is dropped only if its client is gone, and holds nothing when it selects again |
| `LimiterStack.AnsweredOnce` | pkg/handler/upstream-pool-handler.go:124-167 | over every run, of all the events that forward a request, write its 429 or give it up there is at most one, and exactly one once its handler is on the way out |
| `LimiterStack.BounceIsClean` | pkg/handler/concurrency-limiter.go:289-296 | after a hand-back in any run every semaphore and waiter count is what the other requests alone hold, they are as they were, and no answer was given |
| `LimiterStack.BouncesBounded` | pkg/handler/reselect.go:34-45 | hand-backs are at most the eligible-set changes of its life, plus one for a gone client |
| `LimiterStack.BouncesPaid` | pkg/handler/concurrency-limiter.go:261-296 | and at most the changes, client gone or not, unless a re-check ran after the client left while the eligible set was unchanged |
| `LimiterStack.RecheckIff` | pkg/handler/concurrency-limiter.go:256-275 | a connected queued request is marked for a hand-back by its re-check if and only if its pool is time-windowed and its list is no longer the one it was chosen from |
| `LimiterStack.HandedBackIff` | pkg/handler/concurrency-limiter.go:286-296 | it is handed back if and only if it is marked, and then selects again |
| `LimiterStack.ChangedListReselects` | pkg/handler/upstream-pool-handler.go:146-165 | after such a change it can, by four steps of its own, choose from the new list |
| `LimiterStack.GoneClientBounces` | pkg/handler/upstream-pool-handler.go:148-154 | the extra hand-back occurs |
| `CircuitBreaker.CircuitBreakerGate.AdmitLocked` | pkg/handler/circuit-breaker.go:154-174 | verdict and new state of one arrival |
| `CircuitBreaker.CircuitBreakerGate.ObserveLocked` | pkg/handler/circuit-breaker.go:188-217 | new state after one verdict |
| `CircuitBreaker.CircuitBreakerGate.ReleaseProbeLocked` | pkg/handler/circuit-breaker.go:222-226 | clears the probe flag and nothing else |
| `CircuitBreaker.CircuitBreakerGate.SetStateLocked` | pkg/handler/circuit-breaker.go:233-246 | a transition stamps the opening and clears the flag only on the way to open |
| `CircuitBreaker.RunExists` | pkg/handler/circuit-breaker.go:126-144 | every event sequence has its run, so the theorems below speak of all of them |
| `CircuitBreaker.ArrivalExactly` | pkg/handler/circuit-breaker.go:154-174 | at every step an arrival is refused if and only if the breaker is open for less than 30 s or half-open with its flag set, is a plain forward if and only if it is closed, and otherwise the probe |
| `CircuitBreaker.VerdictExactly` | pkg/handler/circuit-breaker.go:188-217 | what every verdict does: a probe's failure opens and its success closes, a plain one counts only while closed |
| `CircuitBreaker.ReleaseExactly` | pkg/handler/circuit-breaker.go:222-226 | a probe's deferred release or panic clears the flag alone |
| `CircuitBreaker.OneProbeIffPrompt` | pkg/handler/circuit-breaker.go:126-226 | the flag means half-open with exactly one probe out, throughout, if and only if no deferred release comes while another probe is out |
| `CircuitBreaker.LateReleaseLetsTwoOut` | pkg/handler/circuit-breaker.go:139-143 | a run with an overdue release and two probes out |
| `CircuitBreaker.FailuresCounted` | pkg/handler/circuit-breaker.go:188-217 | the counter is the failure streak of the counted verdicts of this closed period |
| `CircuitBreaker.OpensExactly` | pkg/handler/circuit-breaker.go:188-217 | it opens exactly when the last `threshold` counted verdicts are all 5xx or a straggling probe fails, of which there is none with prompt releases; failures < threshold if and only if closed |
| `CircuitBreaker.QuietIff` | pkg/handler/circuit-breaker.go:154-217 | nothing that could arrive is forwarded within 30 s of any opening if and only if no probe reports success inside a later opening's period |
| `CircuitBreaker.LateReleaseLeaks` | pkg/handler/circuit-breaker.go:139-143 | a run forwarded at the instant of an opening |
| `CircuitBreaker.ProbesApartIff` | pkg/handler/circuit-breaker.go:154-226 | no two probes can be closer than a close or 30 s if and only if no deferred release takes the flag of a probe less than 30 s old |
| `CircuitBreaker.PromptIsEnough` | pkg/handler/circuit-breaker.go:126-226 | prompt releases give a quiet period, and without a panic probes that stay apart |
| `ThrottleGate.Gate.PruneWindow` | pkg/handler/throttle-gate.go:190-198 | the in-place filter keeps exactly the young instants, in order |
| `ThrottleGate.Gate.IncreaseDelay` | pkg/handler/throttle-gate.go:231-238 | the wrapping doubling with its cut-off |
| `ThrottleGate.Gate.EnterThrottle` | pkg/handler/throttle-gate.go:217-225 | starts at one second or the maximum |
| `ThrottleGate.Gate.RecordRefusal` | pkg/handler/throttle-gate.go:204-213 | whole new state after a 429 |
| `ThrottleGate.Gate.RecordClean` | pkg/handler/throttle-gate.go:245-256 | whole new state after anything else |
| `ThrottleGate.Gate.RecordStatus` | pkg/handler/throttle-gate.go:175-256 | whole new state after one observed status |
| `ThrottleGate.WindowExact` | pkg/handler/throttle-gate.go:175-198 | the pruned window is the 429s of the full history younger than 60 s |
| `ThrottleGate.StartsExactly` | pkg/handler/throttle-gate.go:204-225 | throttling starts exactly when that count reaches the threshold, at min(1 s, max) |
| `ThrottleGate.DoublingExact` | pkg/handler/throttle-gate.go:231-238 | under wrap-around the doubling is min(2d, max) |
| `ThrottleGate.RefusalDoubles` | pkg/handler/throttle-gate.go:204-238 | on every run a 429 while throttled leaves min(2d, max) and the halving anchor |
| `ThrottleGate.RefusalsDouble` | pkg/handler/throttle-gate.go:204-238 | after j 429s without a halving the delay is min(2^j * start, max) |
| `ThrottleGate.CleanHalvesIff` | pkg/handler/throttle-gate.go:245-256 | a clean response halves, or ends the throttling below 2 s, if and only if no 429 of the history is younger than 60 s and the last halving is 60 s ago; otherwise it changes nothing |
| `ThrottleGate.DelayBounded` | pkg/handler/throttle-gate.go:204-256 | on: min(1 s, max) <= delay <= max; off: 0 |
| `ThrottleGate.StepsToOffIsLeast` | pkg/handler/throttle-gate.go:245-256 | the step count is the smallest k >= 1 with delay < 2^k seconds |
| `ThrottleGate.Recovery` | pkg/handler/throttle-gate.go:245-256 | without new 429s it is off exactly after that many halvings, each at least 60 s apart |
| `ThrottleGate.SpacedRecovery` | pkg/handler/throttle-gate.go:245-256 | clean responses a window apart do turn it off at that step |
| `Backpressure.TtftBackpressure.constructor` | pkg/handler/ttft-backpressure.go:90-120 | starts at the ceiling with floor max(1, ceiling/16) |
| `Backpressure.TtftBackpressure.EvaluateLocked` | pkg/handler/ttft-backpressure.go:186-209 | halve, grow in 64 bits, or hold |
| `Backpressure.TtftBackpressure.RollLocked` | pkg/handler/ttft-backpressure.go:169-178 | a window change evaluates and clears |
| `Backpressure.TtftBackpressure.ObserveColdTtft` | pkg/handler/ttft-backpressure.go:136-144 | new state after one sample |
| `Backpressure.TtftBackpressure.ObserveStatus` | pkg/handler/ttft-backpressure.go:150-160 | new state after one status |
| `Backpressure.MedianSplits` | pkg/handler/ttft-backpressure.go:215-227 | at least half of the samples lie on either side of the median, in whatever order they came |
| `Backpressure.MedianExactly` | pkg/handler/ttft-backpressure.go:215-227 | by any ascending arrangement of the samples: the middle one, the mean of the two central ones, or 0 |
| `Backpressure.BudgetIsFold` | pkg/handler/ttft-backpressure.go:169-209 | the budget is the fold over the maximal same-window groups except the open last one, however the history is cut into them |
| `Backpressure.ClosedWindow` | pkg/handler/ttft-backpressure.go:169-209 | on every history a closed window leaves half the budget but at least max(1, ceiling/16) after a failure or a slow median, 8192 more but at most the ceiling after a median below 8 s, and the same budget otherwise |
| `Backpressure.WindowIsMinute` | pkg/handler/ttft-backpressure.go:169-178 | two readings share a window if and only if they share a minute |
| `Backpressure.CutExists` | pkg/handler/ttft-backpressure.go:169-178 | every history can be cut so |
| `Backpressure.BudgetBounds` | pkg/handler/ttft-backpressure.go:97-115 | after every history the budget is at least the positive floor, if and only if ceiling + 8192 < 2^63; it never exceeds the ceiling |
| `Backpressure.HugeCeilingDisables` | pkg/handler/ttft-backpressure.go:186-209 | at the largest ceiling one clean window makes it negative |
| `Backpressure.FloorAfterFourBad` | pkg/handler/ttft-backpressure.go:186-209 | four bad windows in a row reach the floor from any state, even a wrapped one |
| `Backpressure.GrowthIff` | pkg/handler/ttft-backpressure.go:186-209 | k clean windows win back at least 8192k above the floor, up to the ceiling, on every history if and only if ceiling + 8192 < 2^63 |
| `Selection.EligibleIndices` | pkg/handler/upstream-pool-handler.go:211-224 | the loop computes the eligible list |
| `Selection.EligibleExactly` | pkg/handler/upstream-pool-handler.go:211-224 | exactly the eligible members, each once, in declaration order |
| `Selection.PinSlot` | pkg/handler/upstream-pool-handler.go:244-272 | the two loops find the ring position over the stored total, the division by zero included |
| `Selection.RingExactIff` | pkg/handler/upstream-pool-handler.go:244-272 | each eligible member gets exactly its weight of the slots if and only if the total fits 64 bits |
| `Selection.RingSlot` | pkg/handler/upstream-pool-handler.go:244-272 | every hash is pinned to the member whose interval of the ring, in declaration order, contains it |
| `Selection.FallbackUnreachable` | pkg/handler/upstream-pool-handler.go:264-272 | for every weight list and hash the trailing return is never taken, even when the sum overflows |
| `Selection.HugeWeightsPanic` | pkg/handler/upstream-pool-handler.go:244-272 | four weights of 2^62 divide by zero |
| `UpstreamConfig.Config.NormalizeUpstreams` | pkg/config.go:681-729 | every provider ends normalized, or one is refused with its reason and the others are whole |
| `UpstreamConfig.AcceptedPool` | pkg/config.go:577-597 | an accepted provider has a nonempty pool with positive weights, 0 read as 1, equal to what readers see |
| `UpstreamConfig.AcceptedIff` | pkg/config.go:577-729 | exactly which providers are accepted, and the pool field by field: as listed, or one upstream of the provider's own fields, with every 0 weight read as 1 |
| `UpstreamConfig.RefusedExactly` | pkg/config.go:688-706 | which of the three form errors, in order |
| `UpstreamConfig.AcceptedRing` | pkg/config.go:592-597 | for every accepted provider, nonempty eligible set and hash the ring is exact if and only if the weights fit 64 bits, and the scan never falls through |
| `UpstreamConfig.NormalizeAgainIff` | pkg/config.go:681-729 | exactly which normalized providers are accepted again, unchanged |
| `UpstreamConfig.NormalizeTwiceRefused` | pkg/config.go:681-729 | every single-upstream provider is accepted once and refused the next time |
| `Balancing.UpstreamPool.LeastLoaded` | pkg/handler/upstream-pool-handler.go:286-324 | the ties are exactly the eligible members of least snapshot load, and the counter chooses among them |
| `Balancing.TiedIff` | pkg/handler/upstream-pool-handler.go:311-321 | a member ties if and only if its load is at most every load |
| `Balancing.TiesDistinct` | pkg/handler/upstream-pool-handler.go:286-324 | ties are distinct members in order |
| `Balancing.RoundRobinFairIff` | pkg/handler/upstream-pool-handler.go:311-324 | k*m consecutive counter values come to each of k places exactly m times if and only if the counter does not wrap among them, or 2^64 is a multiple of k, or the wrap ends a turn |
| `Balancing.UpstreamPool.SelectAll` | pkg/handler/upstream-pool-handler.go:286-324 | consecutive keyless selections among the same members of least load choose by consecutive counter values |
| `Balancing.LeastServedAlikeIff` | pkg/handler/upstream-pool-handler.go:286-324 | while the same k members have the least load, k*m selections choose every one of them exactly m times, whatever the loads and the other members, if and only if the wrap is harmless |
| `Balancing.WrapDisturbs` | pkg/handler/upstream-pool-handler.go:311-324 | at the wrap they do not |
| `Balancing.ModelLeastLoaded` | pkg/handler/model-pool.go:164-193 | with two reads of live loads there is no tie if and only if the first minimum is gone from the second read, and otherwise the ties are exactly the members read with it and the counter chooses among them |
| `Balancing.SteadyLoadsTie` | pkg/handler/model-pool.go:164-193 | loads that hold still always tie |
| `Balancing.MovingLoadsMayNotTie` | pkg/handler/model-pool.go:164-193 | one arriving request can leave no tie |
| `Balancing.OverflowTarget` | pkg/handler/model-pool.go:203-222 | the first declared least-loaded eligible sibling, or the member itself if it has none |
| `Balancing.ModelPool.Resolve` | pkg/handler/model-pool.go:81-91 | a keyless request goes to the least-loaded tie the counter names, a pinned one to its ring member, and past a saturated one that allows it to the least-loaded sibling |
| `EnvRefs.ResolveEnvRef` | pkg/config.go:998-1031 | value and next offset of the reference at i, or its fault |
| `EnvRefs.ExpandEnvRefs` | pkg/config.go:955-986 | the index loop refines the left-to-right token grammar |
| `EnvRefs.TokensFaithful` | pkg/config.go:955-986 | the tokens spell the file: nothing lost, added or read twice |
| `EnvRefs.SuccessIsConcatenation` | pkg/config.go:955-986 | success if and only if every token is sound, and then the output is their values in order, inserted values never rescanned |
| `EnvRefs.FirstFaultReported` | pkg/config.go:955-1031 | failure reports the offset and fault of the first bad reference |
| `EnvRefs.PlainMeans` | pkg/config.go:960-983 | a character that opens neither form stands for itself |
| `EnvRefs.EscapeMeans` | pkg/config.go:966-970 | `$${` stands for `${` |
| `EnvRefs.ReferenceMeans` | pkg/config.go:998-1031 | `${NAME}` stands for the variable's value, read on behind the brace; a fault at its own offset if the name is none or the variable unset |
| `EnvRefs.UnclosedMeans` | pkg/config.go:998-1009 | `${` never closed is a fault at its own offset |
| `EnvRefs.NameIff` | pkg/config.go:925-928 | a letter or underscore, then letters, digits and underscores |
| `EnvRefs.EscapeRoundTrip` | pkg/config.go:955-986 | for every text and environment, writing each `${` as `$${` and expanding gives the text back |
| `InFlightPeak.InFlight.Start` | pkg/handler/inflight.go:85-110 | prunes, counts, raises the second's bucket, and hands out an unused end function |
| `InFlightPeak.InFlight.RaisePeak` | pkg/handler/inflight.go:91-96 | keeps the highest count of the second |
| `InFlightPeak.EndOnce.End` | pkg/handler/inflight.go:98-110 | only the first call counts |
| `InFlightPeak.InFlight.Collect` | pkg/handler/inflight.go:121-146 | reports each provider's count and the largest of it and its pruned buckets |
| `InFlightPeak.InFlight.PruneLocked` | pkg/handler/inflight.go:150-156 | prunes one provider |
| `PeakBuckets.DropOld` | pkg/handler/inflight.go:150-156 | the deleting loop keeps exactly the buckets younger than 60 s |
| `PeakBuckets.Highest` | pkg/handler/inflight.go:127-132 | the larger of the count and the largest bucket |
| `InFlightPeak.CurrentExact` | pkg/handler/inflight.go:85-110 | in every run, whatever the clock does, the count is starts minus distinct ends, and the clamp at zero never fires |
| `InFlightPeak.BucketsExact` | pkg/handler/inflight.go:85-156 | every bucket is a count some start of its second reached, and covers every start still in the window |
| `InFlightPeak.PeakExact` | pkg/handler/inflight.go:121-146 | the reported peak is the larger of the count and the largest count any start of the last 60 seconds reached, from the full history |
| `SystemLift.NormalizeToBlocks` | pkg/handler/system-lift.go:177-195 | null, text and list have blocks; nothing else does |
| `SystemLift.LiftableBlocks` | pkg/handler/system-lift.go:139-164 | moves exactly system-role entries outside index 0, and fails exactly on unreadable ones with the code's fault |
| `SystemLift.LiftSystemMessages` | pkg/handler/system-lift.go:67-126 | the loop computes the lift, or the fault of the first unreadable entry |
| `SystemLift.LiftUnique` | pkg/handler/system-lift.go:67-126 | the body determines the outcome |
| `SystemLift.LiftMeans` | pkg/handler/system-lift.go:67-126 | kept entries in order with index 0 fixed; system = old blocks, then each moved entry's blocks in order and nothing more; moved = entries removed; other fields unchanged |
| `SystemLift.KeptOnly` | pkg/handler/system-lift.go:85-105 | every surviving entry is a non-moving one of the original, at its rank |
| `SystemLift.FailsExactly` | pkg/handler/system-lift.go:50-56 | exactly which bodies are refused, and that an untouched body had nothing to move |
| `SystemLift.FaultExactly` | pkg/handler/system-lift.go:53-59 | which fault is reported: body, list, first unreadable entry and what is wrong with it, system value |
| `SystemLift.MovesExactly` | pkg/handler/system-lift.go:139-164 | an entry moves if and only if it is not the first and its role is "system" |
| `SystemLift.ReadableExactly` | pkg/handler/system-lift.go:139-164 | which entries can be interpreted |
| `SystemLift.BlocksExactly` | pkg/handler/system-lift.go:177-195 | one text block for a string, a list's items, none for null or no content, and nothing else |
| `SystemLift.NullIsNoFault` | pkg/handler/system-lift.go:67-90 | a null body, message list or entry is no error |
| `SystemLift.LiftTwice` | pkg/handler/system-lift.go:67-126 | applied to its own output it moves nothing |
| `SystemLift.LiftContinues` | pkg/handler/system-lift.go:67-126 | lifting a conversation in two parts is lifting it at once |
| `RejectionReason.RejectionSlot.Record` | pkg/handler/rejection-reason.go:67-73 | first writer wins |
| `RejectionReason.ResponseChain.WriteHeader` | pkg/handler/status-recorder.go:30-36 | nested recorders keep and forward the first header, and stay in agreement |
| `RejectionReason.ResponseChain.Write` | pkg/handler/status-recorder.go:38-43 | an implicit 200 unless a header went first |
| `RejectionReason.ResponseChain.WriteRateLimited` | pkg/handler/concurrency-limiter.go:44-57 | records the reason before the 429 |
| `RejectionReason.ResponseChain.ServeTry` | pkg/handler/concurrency-limiter.go:276-310 | one selection: refusal, departure, hand-back with nothing written, or the proxy's answer |
| `RejectionReason.ResponseChain.Serve` | pkg/handler/upstream-pool-handler.go:124-167 | for any nesting of gates and any number of re-selections: the slot names the gate that refused, and every watching gate sees the router's status |
| `RejectionReason.LoopEnds` | pkg/handler/upstream-pool-handler.go:146-166 | the pool's loop ends with the first try that is not handed back, or with the client gone |
| `RejectionReason.Router.Dispatch` | pkg/handler/model-router.go:434-469 | what reaches the client and which one counter moves |
| `RejectionReason.FirstCallDecides` | pkg/handler/status-recorder.go:30-43 | of any sequence of writes the first decides the status |
| `RejectionReason.CauseExact` | pkg/handler/rejection-reason.go:67-90 | a gate's reason if and only if that gate refused; `upstream` if and only if a 429 no gate wrote; every 429 counted unless aborted |
| `RejectionReason.CountsExact` | pkg/handler/model-router.go:465-469 | over every run each counter is the number of requests with that cause |
| `RejectionReason.RejectionsAddUp` | pkg/handler/model-router.go:450-469 | over every run the counters sum to the requests answered 429, less the aborted ones |
| `RejectionReason.AddUpIff` | pkg/handler/model-router.go:450-469 | the sum is exact if and only if no 429 was aborted |
| `RejectionReason.AbortedIsNotCounted` | pkg/handler/model-router.go:434-469 | an aborted 429 is answered and not counted |
| `RejectionReason.UpstreamUnchangedIff` | pkg/handler/throttle-gate.go:160-169 | exactly when an upstream's status reaches the client |
| `RejectionReason.EarlyHintsHide429` | pkg/handler/status-recorder.go:30-36 | a 429 after early hints is answered 200 and not counted |

## Left out

- Goroutine interleaving inside one step: the limiter stack and the cold-start queue are step
  systems over values, not methods; a waiter count changes in the same step as the channel
  operation beside it, and a request's own code between two steps is invisible to the others.
- LimiterStack.BouncesBounded: allows one hand-back more for a client that is gone, because
  that one occurs.
- Balancing.RoundRobinFairIff: covers stretches that meet at most one wrap of the counter.
- CircuitBreaker.QuietIff: assumes clock readings in lock order, as does every theorem about
  elapsed time.
- The throttle gate's pacing channel and its delay timers; only its detector and delay are here.
- Total waiting time of a re-selected request: every hand-back starts a new queue timeout.
- Saturation of time differences, and configured durations that do not fit 64-bit nanoseconds
  (292 years).
- Overflow of the in-flight token sum, and negative estimates: the router reads the whole body,
  at most 32 MB, before the gate sees its length (`pkg/handler/model-router.go:171-205`).
- Floating-point rounding and NaN in the controller: seconds are reals, and the sort library is
  an insertion sort with the same result.
- Other configuration checks: window and weekday validation, model patterns, aliases, routes.
- JSON text, YAML, gzip and event-stream parsing; JSON values are abstract, duplicate keys
  already merged.
- Cancellation inside the selection and lift loops, beyond a gone client not being served.
- HTTP plumbing, reverse proxy, transports, flushing and hijacking through the recorders,
  logging, traces, authentication, reloading, Prometheus collectors other than the counters
  and gauges named above.
- The FNV hash, glob matching and time zones: any 64-bit hash, any eligible set.
