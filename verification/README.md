# StarkPulse backend: models and proofs

Dafny models of the stateful services of the StarkPulse backend, with proofs about what every
run of them keeps. `dafny verify dfyconfig.toml` checks the project.

Each component has a model of one call (a function from the old state to the new state and the
answer), a class whose methods work through the same steps as the source and are proved to
produce exactly that state and answer, and theorems about all runs. Where the source keeps a
compact state, the theorems compare it with the complete history of events: a pruned list
with all hits ever made, lazily refilled tokens with a bucket driven by a clock, a cached
answer with the repository, status fields with the events that led to them. Where a promise
fails in general, the project states for exactly which configurations or inputs it holds.

Files, in the order in which they build on each other:

- `Basics`, `Reals`, `Series`, `RateLimits`: shared definitions; `RateLimits` holds the common
  answer of the limiters and the counting of hits in a history.
- `TokenBucket`, `SlidingWindow`, `FixedWindow`, `RateLimitComparison`: the rate limiters.
- `CircuitBreaker`, `Retry`: fault tolerance, including overlapping and nested calls.
- `EventListener`: synchronisation of contract events with arbitrary failures.
- `Consensus`: weighted votes of content validators.
- `Correlation`, `Indicators`, `Portfolio`: market and portfolio arithmetic.
- `TwoLevelCache`, `Roles`: the cache, and role checks on top of it.
- `Sessions`, `WalletAuth`, `Recovery`: lifecycles of sessions, login nonces and recovery operations.

Conventions. Times are integers in milliseconds and are inputs that do not run backwards where
a theorem says so. JavaScript numbers are unbounded integers where they count and reals where
they are computed with. An asynchronous method is one atomic step, except for calls through the
circuit breaker, whose start and end are separate steps, and for recovery operations: a decision
is its record and then its status, an execution is a check, a start and an end. Permission
checks, signatures, fetched events and failures of stores are inputs that may take any value.
Ids that the source draws at random (sessions, recovery operations) are counters.

Where the code and its documentation differ, the models follow the code:

- `README.md` of the backend promises at most 3 nonces per 15 minutes; this fails exactly across
  a login, which clears the count (`WalletAuth.FourthNonceExactly`).
- The limiters on the cache manager pass their TTL in seconds, while
  `src/common/cache/cache.service.ts:202` converts to milliseconds for the same cache. The
  theorems hold for any lifetime of at least one window; `SlidingWindow.TtlUnitDecides` says what
  either reading means.
- `circuit-breaker.ts` speaks of consecutive failures. A getContract nested in a callMethod on
  the same breaker counts by itself: if it succeeds it resets the count, so failing callMethods
  open the breaker only when enough of them overlap; if it fails one callMethod adds up to four
  failures (`CircuitBreaker.NestedCallsOpenExactly`).
- The reset time that `getTokenBucket` reports adds a number of tokens to a timestamp; it is that of
  the last hit only if the burst capacity equals the interval (`TokenBucket.ReportRepeatsExactly`).
- Recovery executions require an approval each; two that overlap can share one
  (`Recovery.NeverOutnumberExactly`).

## Model

| member | source | states |
|---|---|---|
| TokenBucket.LazyIsEagerExactly | src/common/stores/token-bucket-rate-limit.store.ts:68-86 | over all runs the lazily refilled bucket gives the same answers as a bucket that a clock refills every interval, if and only if the initial fill exceeds the burst limit by at most one token or the interval is 1 ms |
| TokenBucket.LazyAgreesWithEager | src/common/stores/token-bucket-rate-limit.store.ts:68-95 | under that condition the stored tokens and lastRefill stand for the eager bucket after every hit, with lastRefill on its ticks |
| TokenBucket.ClipBetweenTicksIsVisible | src/common/stores/token-bucket-rate-limit.store.ts:75-80 | otherwise two hits one millisecond apart are answered differently, because any elapsed time clips the tokens |
| TokenBucket.RateBound | src/common/stores/token-bucket-rate-limit.store.ts:47-95 | in every run of hits, without increments, any interval [from, to] holds at most max(capacity, burst) + (floor((to - from) / interval) + 1) * refillRate allowed hits |
| TokenBucket.SpendingIsFunded | src/common/stores/token-bucket-rate-limit.store.ts:75-86 | allowed hits since a moment plus the tokens left never exceed a full bucket plus the refills since then |
| TokenBucket.FreshBucketServesCapacity | src/common/stores/token-bucket-rate-limit.store.ts:68-86 | within one millisecond a new key is allowed exactly its first `capacity` hits |
| TokenBucket.RemainingIsExact | src/common/stores/token-bucket-rate-limit.store.ts:81-94 | of the hits that follow in the same millisecond exactly the first `remaining` are allowed |
| TokenBucket.ResetIsExact | src/common/stores/token-bucket-rate-limit.store.ts:75-94 | a bucket below its burst limit holds more tokens exactly from the reset time on |
| TokenBucket.AdjustmentApplies | src/common/stores/token-bucket-rate-limit.store.ts:54-65 | the first adjustment of the user decides: its override replaces the capacity, rate and burst are scaled and rounded up; everyone else keeps the configured limits |
| TokenBucket.TokenBucketRateLimitStore.Adjusted | src/common/stores/token-bucket-rate-limit.store.ts:54-65 | computes those limits step by step |
| TokenBucket.TokenBucketRateLimitStore.HitTokenBucket | src/common/stores/token-bucket-rate-limit.store.ts:47-95 | the record of the key and the answer are those of the hit on the old record, no other key changes, and a refused hit leaves no tokens |
| TokenBucket.TokenBucketRateLimitStore.Hit | src/common/stores/token-bucket-rate-limit.store.ts:109-115 | a hit with capacity, refill rate and burst all equal to max |
| TokenBucket.ExpiryGivesNothingExactly | src/common/stores/token-bucket-rate-limit.store.ts:66-79 | for records that a cache drops some lifetime after their last write: a new bucket never holds more than the dropped one would, in any run, if and only if the whole intervals of the lifetime refill the capacity within the burst limit, or the capacity is 0 |
| TokenBucket.WholeRefillsCoverBurst | src/common/stores/token-bucket-rate-limit.store.ts:66 | the TTL in seconds meets that condition when the burst limit is a multiple of the refill rate and covers the capacity, as it is for `hit` |
| TokenBucket.PartialRefillGivesAway | src/common/stores/token-bucket-rate-limit.store.ts:66 | it need not otherwise: a bucket of 3 that gains 2 every 2 seconds is dropped after 3 seconds, when it would hold 2 |
| TokenBucket.ReportForeseesExactly | src/common/stores/token-bucket-rate-limit.store.ts:97-107 | getTokenBucket reports the stored tokens without refilling them: it foresees the decision on a hit exactly when no refill is due that would fill an empty bucket, and no clip to a burst limit of 0 that would empty it |
| TokenBucket.ReportRepeatsExactly | src/common/stores/token-bucket-rate-limit.store.ts:75-107 | after a hit the report repeats the tokens and the window start of its answer, and its reset time if and only if the burst capacity equals the interval |
| TokenBucket.TokenBucketRateLimitStore.Increment | src/common/stores/token-bucket-rate-limit.store.ts:125-131 | hands one token back up to the burst limit of the record and ignores unknown keys |
| TokenBucket.TokenBucketRateLimitStore.Reset | src/common/stores/token-bucket-rate-limit.store.ts:121-123 | forgets the key and nothing else |
| SlidingWindow.CountsWholeHistory | src/common/stores/sliding-window-rate-limit.store.ts:13-37 | every answer from the cache counts exactly the hits in (now - windowMs, now] of the never-pruned history of hits that reached it, and its reset time is when the oldest of them leaves, even if the entry expires between hits |
| SlidingWindow.StoredIsPrunedHistory | src/common/stores/sliding-window-rate-limit.store.ts:18-24 | the stored list is the full history pruned at the last hit |
| SlidingWindow.AtMostMaxPerWindow | src/common/stores/sliding-window-rate-limit.store.ts:18-28 | without rejected cache accesses no interval of one window contains more than max allowed hits |
| SlidingWindow.RejectedHitsAddUp | src/common/stores/sliding-window-rate-limit.store.ts:40-49 | in any run with rejections the stored entry is that of the hits that reached the cache, and the allowed hits are theirs and all rejected ones |
| SlidingWindow.FallbackIsFirst | src/common/stores/sliding-window-rate-limit.store.ts:40-49 | the answer to a rejected hit is that of a first hit, except that a limit of 0 is ignored |
| SlidingWindow.AtMostMaxAndFailed | src/common/stores/sliding-window-rate-limit.store.ts:13-50 | with rejections an interval of one window contains at most max allowed hits plus its rejected ones |
| SlidingWindow.MaxAndFailedIsReached | src/common/stores/sliding-window-rate-limit.store.ts:40-49 | for any number of rejections that bound is reached, within one millisecond |
| SlidingWindow.KeepsLimitExactly | src/common/stores/sliding-window-rate-limit.store.ts:13-50 | the limit of max per window holds on all runs if and only if no cache access may be rejected, and the cache keeps an entry at least one window long after its last write or the limit is 0 |
| SlidingWindow.EarlyExpiryBreaksLimit | src/common/stores/sliding-window-rate-limit.store.ts:24-28 | with a shorter lifetime max + 1 hits get through in one window |
| SlidingWindow.TtlUnitDecides | src/common/stores/sliding-window-rate-limit.store.ts:24 | as long as nothing is rejected, the TTL of the source keeps the limit with a cache that reads it in seconds; read in milliseconds, only for windows of 1 ms |
| SlidingWindow.SlidingWindowRateLimitStore.Hit | src/common/stores/sliding-window-rate-limit.store.ts:13-50 | filters, appends and stores the timestamps of the key; a cache failure allows the hit and changes nothing |
| SlidingWindow.SlidingWindowRateLimitStore.Increment | src/common/stores/sliding-window-rate-limit.store.ts:88-91 | a hit against the largest safe integer, reporting only the count |
| FixedWindow.MemoryCountsWindow | src/common/stores/memory-rate-limit.store.ts:26-80 | whatever gets and cleanups came in between, a hit is answered with the number of hits of the history in its aligned window |
| FixedWindow.StoredCounts | src/common/stores/memory-rate-limit.store.ts:39-49 | from the last operation on the record counts the hits of its window, and every other current window has had none |
| FixedWindow.RemainingIsExact | src/common/stores/memory-rate-limit.store.ts:31-60 | of the hits that follow in the same millisecond exactly the first `remaining` are allowed |
| FixedWindow.ResetIsExact | src/common/stores/memory-rate-limit.store.ts:31-60 | the next hit counts on before the reset time and starts anew from then on; the reset time is one window after the start |
| FixedWindow.RedisCountsWindow | src/common/stores/redis-rate-limit.store.ts:13-32 | without rejections the per-window counters answer with the same number |
| FixedWindow.RedisCountsExactly | src/common/stores/redis-rate-limit.store.ts:82-92 | the counters are right on every run if and only if no access to them may be rejected and they are kept at least one window long |
| FixedWindow.RejectedHitsAddUp | src/common/stores/redis-rate-limit.store.ts:82-92 | in any run with rejections the allowed hits are those of the hits that reached the counters and, unless the limit is 0, all rejected ones |
| FixedWindow.AtMostTwiceMaxAndFailed | src/common/stores/redis-rate-limit.store.ts:13-32 | with rejections any interval of one window length contains at most 2 * max allowed hits plus its rejected ones |
| FixedWindow.TwiceMaxAndFailedIsReached | src/common/stores/redis-rate-limit.store.ts:82-92 | for every limit and any number of rejections a burst around a boundary reaches that bound |
| FixedWindow.StoresAgree | src/common/stores/redis-rate-limit.store.ts:13-32 | without rejections the in-memory and the Redis store answer every hit of every run identically |
| FixedWindow.AtMostTwiceMax | src/common/stores/memory-rate-limit.store.ts:31-52 | any interval of one window length, aligned or not, contains at most 2 * max allowed hits |
| FixedWindow.TwiceMaxIsReached | src/common/stores/memory-rate-limit.store.ts:31-52 | for every limit and every window above 1 ms a burst around a boundary reaches 2 * max |
| FixedWindow.MemoryRateLimitStore.Hit | src/common/stores/memory-rate-limit.store.ts:26-61 | counts the hit in the record of the key, starting a new record when the window changed |
| FixedWindow.MemoryRateLimitStore.Increment | src/common/stores/memory-rate-limit.store.ts:86-107 | the same record update without an answer |
| FixedWindow.ReportedExactly | src/common/stores/memory-rate-limit.store.ts:63-80 | after any run a key is reported if and only if the window of its last hit is not over, its last millisecond included, and then with the number of hits in that window |
| FixedWindow.MemoryRateLimitStore.Get | src/common/stores/memory-rate-limit.store.ts:63-80 | drops an expired record and reports a live one |
| FixedWindow.MemoryRateLimitStore.Cleanup | src/common/stores/memory-rate-limit.store.ts:109-126 | drops exactly the expired records of all keys |
| FixedWindow.RedisRateLimitStore.Hit | src/common/stores/redis-rate-limit.store.ts:13-45 | bumps the counter of the aligned window; when the cache fails the hit counts as the first of its window |
| RateLimitComparison.SlidingIsStricter | src/common/stores/sliding-window-rate-limit.store.ts:15-28 | on the same history, window and limit, with no access rejected, every hit the sliding window allows is allowed by both fixed-window stores |
| RateLimitComparison.AlwaysAgreeExactly | src/common/stores/memory-rate-limit.store.ts:31-52 | sliding and fixed window decide alike on every history if and only if the window is 1 ms or the limit is 0 |
| RateLimitComparison.FixedIsLaxer | src/common/stores/memory-rate-limit.store.ts:31-52 | otherwise a burst before a boundary is forgotten by the fixed window and not by the sliding one |
| CircuitBreaker.StateExplained | src/common/errors/circuit-breaker.ts:21-61 | in every sequential run: closed, failureCount is the current run of failures and below the threshold; open or half open, it is at or above it; open, nextAttempt dates from the failure that opened; successCount counts probe successes since last closed |
| CircuitBreaker.RefusedExactlyDuringCooldown | src/common/errors/circuit-breaker.ts:22-31 | a call is refused if and only if the last executed call failed, left the breaker open and ended at most the cooldown ago |
| CircuitBreaker.FailureOpensExactly | src/common/errors/circuit-breaker.ts:55-61 | a failure opens the breaker if and only if it is a failed probe or completes a run of failureThreshold failures |
| CircuitBreaker.ClosesExactly | src/common/errors/circuit-breaker.ts:42-50 | the breaker closes if and only if a probe success is the successThreshold-th since it was last closed; they need not be consecutive |
| CircuitBreaker.NoBodyDuringCooldown | src/common/errors/circuit-breaker.ts:22-33 | no call body starts within the cooldown of the failure that opened the breaker |
| CircuitBreaker.SurvivesOverlap | src/common/errors/circuit-breaker.ts:42-61 | in every interleaving of overlapping or nested calls a closed breaker is below its threshold |
| CircuitBreaker.ReopensUnderOverlapExactly | src/common/errors/circuit-breaker.ts:50-61 | with overlapping calls a failed probe is sure to reopen if and only if the threshold is 1, since a late success clears the count |
| CircuitBreaker.LateFailuresPutOff | src/common/errors/circuit-breaker.ts:55-61 | failures that complete while the breaker is open put off the next attempt to a cooldown after the last of them |
| CircuitBreaker.DefaultsApply | src/common/errors/circuit-breaker.ts:16-20 | each option counts as given, unless it is absent or 0 |
| CircuitBreaker.OpensUnderOverlapExactly | src/common/errors/circuit-breaker.ts:50-61 | in every interleaving a closed breaker opens if and only if a failure completes a run of failureThreshold failures with no success completing in between |
| CircuitBreaker.CallMethodRuns | src/blockchain/services/contract.service.ts:57-83 | what one callMethod does: it starts, runs getContract in each of up to three attempts, and succeeds if and only if one of them loads the contract and its call succeeds |
| CircuitBreaker.NestedCallsOpenExactly | src/blockchain/services/contract.service.ts:57-63 | callMethod runs getContract through the same breaker, once for each of up to three attempts: in interleavings of callMethods of any outcome, at most n of them under way at a time, the breaker can open if and only if failureThreshold <= n, or getContract may fail and n >= 1 |
| CircuitBreaker.MissingAbiOpens | src/blockchain/services/contract.service.ts:29-63 | callMethods whose getContract fails open the breaker one after the other whatever its threshold, and up to a threshold of 4, such as the 3 of line 15, a single one does |
| CircuitBreaker.CircuitBreaker.Exec | src/common/errors/circuit-breaker.ts:21-40 | one call updates the fields and is refused, succeeds or fails as specified |
| CircuitBreaker.CircuitBreaker.OnSuccess | src/common/errors/circuit-breaker.ts:42-53 | the new state after a success |
| CircuitBreaker.CircuitBreaker.OnFailure | src/common/errors/circuit-breaker.ts:55-61 | the new state after a failure |
| Retry.RetryWithBackoff | src/common/errors/retry-with-backoff.ts:11-47 | fn is called min(retries, index of the first success) times with one wait between calls, the result is a success if and only if one of the allowed calls succeeds, and the final throw is reached if and only if retries <= 0 |
| Retry.CappedGeometricExactly | src/common/errors/retry-with-backoff.ts:40 | every wait after the first is min(initial * factor^i, maxDelay) if and only if factor >= 1, or the first product is within the cap, or the cap is 0 |
| Retry.GrowingWaits | src/common/errors/retry-with-backoff.ts:24-40 | the closed form for factors of at least 1 |
| Retry.ShrinkingWaits | src/common/errors/retry-with-backoff.ts:24-40 | the closed form for factors of at most 1 |
| Retry.TotalDelayBound | src/common/errors/retry-with-backoff.ts:39-40 | the total delay is at most the number of waits times the larger of the first delay and the cap |
| EventListener.EveryRowAccounted | src/blockchain/services/event-listener.service.ts:91-139 | conservation over any run with any failures: the stored rows are each matching event from the origin to lastSyncedBlock once, plus what attempts added that did not move lastSyncedBlock |
| EventListener.StoredAtLeastOnce | src/blockchain/services/event-listener.service.ts:91-139 | no matching event between the origin and lastSyncedBlock is ever missing |
| EventListener.OnlyMonitoredAreStored | src/blockchain/services/event-listener.service.ts:107-124 | over any run with any failures every stored row copies an event of the chain that the contract monitors: any event if it monitors nothing in particular, otherwise one with keys and a monitored name |
| EventListener.MonitoredAreStored | src/blockchain/services/event-listener.service.ts:107-124 | every such event between the origin and lastSyncedBlock has its row |
| EventListener.StoredExactlyOnce | src/blockchain/services/event-listener.service.ts:91-139 | if nothing failed and the first height was at least 1, the table is exactly those events, once each |
| EventListener.StoredAsOftenAsCalled | src/blockchain/services/event-listener.service.ts:91-139 | and every row is there as often as the monitored events of its blocks call for it |
| EventListener.NeverGoesBack | src/blockchain/services/event-listener.service.ts:130-132 | over any run lastSyncedBlock never decreases and no row disappears |
| EventListener.HeightMovesExactly | src/blockchain/services/event-listener.service.ts:91-138 | from the recorded height, or 100 blocks back when there is none, the new height is recorded if and only if there are blocks to look at, every batch of 50 is fetched, every batch with something to store is saved, and the update goes through |
| EventListener.BatchesTile | src/blockchain/services/event-listener.service.ts:99-126 | the batches are at most 50 blocks, follow each other without gap, start at the first and end at the last block |
| EventListener.BatchesCoverOnce | src/blockchain/services/event-listener.service.ts:99-126 | each block lies in exactly one batch, the one given by integer division |
| EventListener.SuccessAddsRange | src/blockchain/services/event-listener.service.ts:102-132 | a synchronisation that goes through adds the matching events of its range once each |
| EventListener.StoredOnceExactly | src/blockchain/services/event-listener.service.ts:93-95 | fault-free runs of a new contract at given heights store no event twice, on any chain, exactly unless the first height is 0 and the second at most 100 |
| EventListener.StoredAsDueExactly | src/blockchain/services/event-listener.service.ts:93-132 | their table is each matching event from the origin to lastSyncedBlock once, on every chain, if and only if the first height is not 0 |
| EventListener.EventListenerService.FetchAndSave | src/blockchain/services/event-listener.service.ts:99-128 | the loop fetches batch by batch, starts a save for each non-empty one, stops at a failed fetch, and reports what failed |
| EventListener.EventListenerService.ProcessContractEvents | src/blockchain/services/event-listener.service.ts:91-139 | one synchronisation of one contract, successful if and only if no fetch, no needed save and not the final update failed |
| EventListener.EventListenerService.PollForEvents | src/blockchain/services/event-listener.service.ts:70-89 | every active contract is synchronised to the same height independently of the others |
| EventListener.EventListenerService.ManualSync | src/blockchain/services/event-listener.service.ts:182-200 | the same for one known contract, ignoring the block number passed |
| Consensus.ReachedIsTheMajority | src/content-validation/services/consensus.service.ts:64-83 | with one vote a validator: a verdict is reached for a side if and only if the side has 66% of all weight, and it is then the only side above half |
| Consensus.VotesAgainstTotal | src/content-validation/services/consensus.service.ts:39-43 | the votes sum to the total weight if and only if no validator voted twice, and exceed it otherwise |
| Consensus.OneMajorityExactly | src/content-validation/services/validation-result.service.ts:25-27 | results are stored without looking for an earlier one of the same validator: for a list of voters at most one side can have more than half of the weight, whatever the decisions and reputations, if and only if no voter is repeated |
| Consensus.TornHasTwoMajorities | src/content-validation/services/consensus.service.ts:38-62 | for any list with a repetition, decisions and reputations from 0 to 100 that give both sides a majority |
| Consensus.RepeatedVoterTies | src/content-validation/services/consensus.service.ts:64-80 | two votes of one validator give a reached consensus that is on neither side |
| Consensus.OrderIrrelevant | src/content-validation/services/consensus.service.ts:125-170 | permuting the votes changes no count, no weight and no score |
| Consensus.ApprovalSurvivesSwitch | src/content-validation/services/consensus.service.ts:64-76 | a reached approval stays when any voter switches to approval |
| Consensus.ApprovalSurvivesNewApprover | src/content-validation/services/consensus.service.ts:64-76 | a reached approval stays when a new validator approves |
| Consensus.WeightedScoreIsUnit | src/content-validation/services/consensus.service.ts:154-170 | scores in [0, 1] give a weighted score in [0, 1] |
| Consensus.ScoreResponds | src/content-validation/services/consensus.service.ts:154-170 | raising the accuracy or the reliability of a vote raises the weighted score, raising its bias lowers it, by a third of the change times the share of its voter in the ballot |
| Consensus.PerfectExactly | src/content-validation/services/consensus.service.ts:160-169 | a ballot with unit scores has the score 1 if and only if every vote has accuracy 1, reliability 1 and bias 0 |
| Consensus.WeightIsMonotone | src/content-validation/services/consensus.service.ts:94-117 | reputation, tier and accuracy never lower a weight, a better tier raises it, and a reputation up to 100 weighs at most 1.8 |
| Consensus.WeightIsExact | src/content-validation/services/consensus.service.ts:94-117 | the factors of the tiers and of the accuracies below 70, up to 90 and above, and the weight without either |
| Consensus.UnweightedCountOne | src/content-validation/services/consensus.service.ts:137 | a voter without a recorded weight, or with weight zero, counts one vote |
| Consensus.RecountsExactly | src/content-validation/services/consensus.service.ts:45-85 | over any recounts of a task: the row keeps threshold, vote count and weights of its first count, reports the counts, shares, score and status of the last, and holds the verdict of the last that reached a consensus, a side's own only when it leads both others |
| Consensus.ConsensusService.CalculateConsensus | src/content-validation/services/consensus.service.ts:26-86 | saves the recount; an existing row keeps its first threshold, validator count and weights, and a pending count keeps an earlier decision; errors save nothing |
| Consensus.ConsensusService.GetValidatorWeights | src/content-validation/services/consensus.service.ts:88-123 | one weight for each voter, or not found when a voter is unknown |
| Consensus.ConsensusService.CalculateWeightedVotes | src/content-validation/services/consensus.service.ts:125-152 | the weight behind each of the three decisions |
| Consensus.ConsensusService.CalculateWeightedScore | src/content-validation/services/consensus.service.ts:154-170 | the weighted mean of the scores |
| Consensus.ConsensusService.SumOf | src/content-validation/services/consensus.service.ts:43 | the sum of the weights, in whatever order they are visited |
| Correlation.PearsonsAgree | src/market-data/market-data.service.ts:208-222 | the raw-sum and the mean-centred correlation agree wherever the latter is a number, and the former is 0 elsewhere |
| Correlation.PearsonInRange | src/market-data/market-data.service.ts:216-221 | the correlation lies in [-1, 1] for series of every length |
| Correlation.CentredIsRaw | src/market-data/market-data.utils.ts:58-63 | n * sum((x - mean x)(y - mean y)) = n * sum(xy) - sum(x) * sum(y) |
| Correlation.CauchySchwarz | src/market-data/market-data.utils.ts:61-63 | the squared product sum is at most the product of the square sums |
| Correlation.DegenerateExactly | src/market-data/market-data.service.ts:221 | the fallback to 0, and the NaN of the utilities, occur if and only if one series is constant |
| Indicators.MonotonePricesTrend | src/market-data/market-data.service.ts:180-206 | rising prices are always classified as an uptrend and falling ones as a downtrend, from period + 1 prices on |
| Indicators.TrendExactly | src/market-data/market-data.service.ts:180-206 | the trend in terms of the prices: whether the simple average, the exponential one, both or none rises, and which is higher |
| Indicators.EmaWithinPrices | src/market-data/market-data.service.ts:134-143 | an exponential average stays within the range of the prices it has seen |
| Indicators.EmaMoves | src/market-data/market-data.service.ts:134-143 | the exponential average moves by 2 / (period + 1) of its distance to the new price |
| Indicators.UtilsSMA | src/market-data/market-data.utils.ts:9-15 | the padded and the unpadded moving average are the same series |
| Indicators.MeanTimesPeriod | src/market-data/market-data.service.ts:123-132 | a window mean times the period is the sum of the window |
| Indicators.RsisAgreeExactly | src/market-data/market-data.utils.ts:27-53 | the two relative strength indices always agree on their first value, and on all values of all series if and only if the period is 1 |
| Indicators.RsisArePercentages | src/market-data/market-data.service.ts:157-162 | both lie in [0, 100] wherever they are numbers |
| Indicators.RsiIsPercentage | src/market-data/market-data.service.ts:161-162 | the index is the share of gains among all movement, and NaN exactly without any movement |
| Indicators.ServiceRsiIsShare | src/market-data/market-data.service.ts:145-166 | the index at a price is the share of gains in the movement of the last `period` changes, whose net is the difference of the prices at their ends |
| Indicators.WilderMoves | src/market-data/market-data.utils.ts:35-47 | a smoothed mean starts with the plain mean of the first window and takes in each change with weight 1 / period |
| Indicators.CalculateSMA | src/market-data/market-data.service.ts:123-132 | one mean for each full window, in order |
| Indicators.CalculateEMA | src/market-data/market-data.service.ts:134-143 | the recurrence at every index; an empty series yields one undefined value |
| Indicators.CalculateRSI | src/market-data/market-data.service.ts:145-166 | the value of the plain-mean index for every price from `period` on |
| Indicators.UtilsRSI | src/market-data/market-data.utils.ts:27-53 | Wilder's index for every price from `period` on, holes before, NaN for data that is too short |
| Portfolio.TwrIsRoiExactly | src/portfolio/portfolio.service.ts:223-248 | for every non-empty series: when the time-weighted return equals the return of the first and last value |
| Portfolio.TwrIsRoiWhileInvested | src/portfolio/portfolio.service.ts:238-248 | in particular whenever no value before the last is zero |
| Portfolio.GrowthTelescopes | src/portfolio/portfolio.service.ts:241-246 | the product of the factors is the last over the first non-zero value, or 0 once a zero has come in between |
| Portfolio.CalculateTimeWeightedReturn | src/portfolio/portfolio.service.ts:238-248 | the loop computes that product |
| TwoLevelCache.CoherentExactly | src/common/cache/cache.service.ts:43-121 | whatever else happens in the cache and whatever reads and invalidations are rejected, reads of a key return its last set value or nothing, if and only if all writes that may happen to the key, rejected ones included, reach the same levels and those are not Redis alone |
| TwoLevelCache.StalenessBound | src/common/cache/cache.service.ts:48-66 | for a key written only to Redis, with or without success, every value read is live in Redis now or was so at a read of the key less than 60 seconds ago |
| TwoLevelCache.StalenessBoundIsReached | src/common/cache/cache.service.ts:63-66 | an overwritten value is still served 59.999 seconds later |
| TwoLevelCache.OrdinaryReadsExactly | src/common/cache/cache.service.ts:57-69 | reads at ordinary priority return the last set value or nothing on all runs if and only if all writes that may happen to the key reach Redis or none does |
| TwoLevelCache.RejectedWritesExactly | src/common/cache/cache.service.ts:90-103 | a key always set on both levels stays coherent if and only if all its sets meet the same fate: going through, being rejected by memory, or by Redis |
| TwoLevelCache.SetIsVisible | src/common/cache/cache.service.ts:81-104 | a set to both levels is visible to every read until its TTL ends, and to no other key |
| TwoLevelCache.SetReachesExactly | src/common/cache/cache.service.ts:81-104 | a set at a level is live there for the given seconds, or else for a minute in memory and ten in Redis, and leaves the other level and other keys alone |
| TwoLevelCache.ReadsNothingRemoved | src/common/cache/cache.service.ts:106-121 | over any run a read finds a value only if some set of the key comes after the last invalidation that matched it and went through |
| TwoLevelCache.NothingFromNothing | src/common/cache/cache.service.ts:43-79 | and only if the key was ever set |
| TwoLevelCache.InvalidationLeaves | src/common/cache/cache.service.ts:106-121 | an invalidation empties memory and removes exactly the matching entries from Redis; what is left when a step of it is rejected |
| TwoLevelCache.FailedReadsExactly | src/common/cache/cache.service.ts:43-79 | a rejection on its way makes a read a miss that leaves the cache alone, one that it does not come across has no effect |
| TwoLevelCache.FailedSetsExactly | src/common/cache/cache.service.ts:81-104 | memory is written first, and the first rejected write is the end of a set |
| TwoLevelCache.CacheService.Get | src/common/cache/cache.service.ts:43-79 | memory first for high priority, then Redis, with promotion for 60 seconds; a rejected read or promotion is a miss |
| TwoLevelCache.CacheService.Set | src/common/cache/cache.service.ts:81-104 | writes the levels in order and stops at the first that is rejected |
| TwoLevelCache.CacheService.CachePortfolioData | src/common/cache/cache.service.ts:146-153 | five minutes, in Redis only |
| TwoLevelCache.CacheService.Invalidate | src/common/cache/cache.service.ts:106-121 | drops the matching keys from Redis and all of memory; a rejection leaves memory as it was and reports 0 |
| Roles.LookupsAreCurrent | src/common/services/role.service.ts:38-55 | for user ids of which none, followed by a colon, begins with another one and ":role:" or ":permission:": after any run of lookups, assignments and removals a cached check answers what the repository says at that moment |
| Roles.AnswersAreRoles | src/common/services/role.service.ts:47-86 | that is: whether the user is known and one of the roles has the name, or grants the permission |
| Roles.AnyIsExistential | src/common/services/role.service.ts:57-95 | for such ids hasAnyRole and hasAnyPermission are the existential over the repository in every reachable state |
| Roles.LookupsStop | src/common/services/role.service.ts:57-95 | what follows the first role or permission held is not looked up |
| Roles.AnswerIsServed | src/common/services/role.service.ts:51-54 | the answer taken from the repository is served for five minutes, whatever happens meanwhile, unless a change of roles clears the key |
| Roles.KeysAreDistinct | src/common/services/role.service.ts:39 | every query of such ids has a cache key of its own |
| Roles.LookupsAreCurrentExactly | src/common/services/role.service.ts:38-86 | cached checks for a set of user ids are current after every run if and only if the set meets that condition |
| Roles.PlainIsSeparate | src/common/services/role.service.ts:39 | ids without a colon, such as UUIDs, meet that condition |
| Roles.RemovalIsExact | src/common/services/role.service.ts:134-145 | removal takes the named role from that user and nothing else from anyone; a permission stays if and only if a remaining role grants it |
| Roles.AssignmentIsExact | src/common/services/role.service.ts:97-114 | assignment grants the role and its permissions and nothing else, when the roles that users hold are those of the table |
| Roles.RefusalsExactly | src/common/services/role.service.ts:97-142 | a change fails for an unknown user, an assignment then for an unknown role, and a failed change leaves everything as it is |
| Roles.AssignedOnce | src/common/services/role.service.ts:112-118 | a role is appended if and only if none of its id is held, and assigning it again changes nothing, cached answers included |
| Roles.StaysConsistent | src/common/services/role.service.ts:97-145 | they stay so in every run, if they were and role ids are unique |
| Roles.RoleService.HasRole | src/common/services/role.service.ts:38-55 | answers from the cache or from the repository, which it then caches |
| Roles.RoleService.HasPermission | src/common/services/role.service.ts:66-86 | the same for a permission |
| Roles.RoleService.HasAnyRole | src/common/services/role.service.ts:57-64 | stops at the first role the user has |
| Roles.RoleService.HasAnyPermission | src/common/services/role.service.ts:88-95 | stops at the first permission the user has |
| Roles.RoleService.AssignRole | src/common/services/role.service.ts:97-132 | adds a role the user does not have yet and clears the keys of the user |
| Roles.RoleService.RemoveRole | src/common/services/role.service.ts:134-162 | filters the roles by name and clears the keys of the user |
| Sessions.AtMostOneActive | src/session/session.service.ts:218-230 | after every run each user has at most one active session |
| Sessions.AcceptancesAreSpaced | src/session/session.service.ts:141-164 | two successive acceptances of a session are at most 30 minutes apart and none is later than its expiry |
| Sessions.AcceptedExactly | src/session/session.service.ts:141-164 | a validation succeeds if and only if the session exists, is not revoked, has not expired, and was last accepted at most 30 minutes ago |
| Sessions.RevokedForever | src/session/session.service.ts:166-197 | over any run no session row disappears and a revoked session stays revoked |
| Sessions.NoAcceptanceAfterRevocation | src/session/session.service.ts:103-197 | a revoked session is never accepted again |
| Sessions.RevokedExactly | src/session/session.service.ts:39-230 | in every run a session is revoked if and only if some step after its creation ended it: its logout, its revocation by its owner, that of the other sessions, a cleaning after its expiry, a validation or signed refresh more than 30 minutes late, or a new session of its owner |
| Sessions.RevocationExactly | src/session/session.service.ts:166-173 | a revocation succeeds if and only if the session exists and belongs to the caller, and then ends it and no other |
| Sessions.NothingAfterLogout | src/session/session.service.ts:182-189 | after its logout a session passes no validation and no refresh |
| Sessions.RefreshExactly | src/session/session.service.ts:103-130 | a refresh succeeds if and only if the token is signed and a validation would succeed |
| Sessions.StoredOfNew | src/session/session.service.ts:60-83 | a new session belongs to the user who opens it and lasts seven days |
| Sessions.StoredOfOld | src/session/session.service.ts:103-197 | later its owner and expiry stay, and only its own successful refresh changes the device |
| Sessions.EnforceLeavesNone | src/session/session.service.ts:46-50 | after enforcement no active session is left, so the search for one on the same device finds none |
| Sessions.RunIsGood | src/session/session.service.ts:39-230 | every reachable state keeps isActive equal to not revoked, one active session a user, and lastActiveAt equal to the last acceptance |
| Sessions.SessionService.CreateSession | src/session/session.service.ts:39-83 | revokes the active sessions of the user and opens a new one for 7 days |
| Sessions.SessionService.ValidateSession | src/session/session.service.ts:141-164 | accepts or rejects, and revokes a session that timed out |
| Sessions.SessionService.RefreshToken | src/session/session.service.ts:103-130 | validates the session of a correctly signed token and records the device |
| Sessions.SessionService.EnforceConcurrentSessions | src/session/session.service.ts:218-230 | at the limit revokes every active session of the user |
| Sessions.SessionService.RevokeSession | src/session/session.service.ts:166-173 | revokes a session of its owner only |
| Sessions.SessionService.RevokeAllOtherSessions | src/session/session.service.ts:175-180 | revokes the other active sessions of the user |
| Sessions.SessionService.LogoutSession | src/session/session.service.ts:182-189 | revokes the session of the token |
| Sessions.SessionService.CleanExpiredSessions | src/session/session.service.ts:191-197 | revokes active sessions past their expiry |
| WalletAuth.VerifyExactly | src/auth/services/wallet-auth.service.ts:119-205 | whatever strings a request names, a login succeeds if and only if the signature is valid, the nonce was issued to that address less than 5 minutes ago and not used since, nor used at all in 24 hours |
| WalletAuth.LoginsAreAccounted | src/auth/services/wallet-auth.service.ts:119-205 | every login is paid for by an issue of its nonce less than 5 minutes earlier that no other login used, and two logins with one nonce are 24 hours apart |
| WalletAuth.PaymentsAreInjective | src/auth/services/wallet-auth.service.ts:187-191 | no two logins share the issue that paid for them |
| WalletAuth.FreshNonceLogsInOnce | src/auth/services/wallet-auth.service.ts:125-191 | when nonces are never issued twice, a nonce logs in at most once |
| WalletAuth.GenerateExactly | src/auth/services/wallet-auth.service.ts:73-97 | a nonce is refused if and only if three were issued in the current series and the last less than 15 minutes ago |
| WalletAuth.AtMostThreeNonces | src/auth/services/wallet-auth.service.ts:73-97 | without a login in between at most 3 nonces are issued to an address within any 15 minutes |
| WalletAuth.FailuresExactly | src/auth/services/wallet-auth.service.ts:124-205 | a login fails as reused if and only if a nonce under its key was used less than 24 hours ago, as unknown if and only if it was not and none issued less than 5 minutes ago is left there, and as rejected if and only if only the signature is wrong |
| WalletAuth.MismatchExactly | src/auth/services/wallet-auth.service.ts:149-159 | the stored nonce is a different one if and only if the request shares the key of a usable nonce of another address, with part of that address moved into the nonce |
| WalletAuth.FourthNonceExactly | src/auth/services/wallet-auth.service.ts:73-97 | when three nonces of an address have been issued within 15 minutes, a fourth is issued if and only if the address logged in since the first of them |
| WalletAuth.LoginClearsLimit | src/auth/services/wallet-auth.service.ts:192-194 | for any four nonces: three in one millisecond, a login with the last of them, and the fourth in the same millisecond |
| WalletAuth.TablesFollowLog | src/auth/services/wallet-auth.service.ts:73-205 | in every run the three Redis tables are functions of what happened |
| WalletAuth.WalletAuthService.GenerateNonce | src/auth/services/wallet-auth.service.ts:73-110 | counts the attempt and stores the nonce, or refuses and changes nothing |
| WalletAuth.WalletAuthService.VerifySignature | src/auth/services/wallet-auth.service.ts:119-216 | blacklists and deletes a used nonce and clears the count; every other verdict, a nonce mismatch included, changes nothing |
| Recovery.ExecutionsArePaidFor | src/recovery/recovery.service.ts:115-211 | in every interleaving in which at most n executions of an operation are between check and start, executions without override are at most n for each positive approval record, and n fewer while the operation is approved |
| Recovery.OverlapIsReached | src/recovery/recovery.service.ts:154-169 | for every n, n executions that are checked before any of them starts share one approval |
| Recovery.NeverOutnumberExactly | src/recovery/recovery.service.ts:154-169 | executions never outnumber positive approval records if and only if at most one execution of an operation may be between check and start |
| Recovery.RegularStartsFollowApproval | src/recovery/recovery.service.ts:154-169 | in every interleaving such an execution was checked when the last event of its operation was a positive decision, made after every start up to then: two executions share a decision only if both are checked before either starts |
| Recovery.ApprovedExactly | src/recovery/recovery.service.ts:126-133 | an operation is approved if and only if the last thing that happened to it was a positive decision |
| Recovery.ClearedExactly | src/recovery/recovery.service.ts:278-309 | who passes the checks: permission, approval, MFA and override, in terms of the history when the row is read |
| Recovery.ReasonsExactly | src/recovery/recovery.service.ts:154-309 | each reason to turn an execution away, in terms of the history when the row is read; whoever is turned away changes nothing |
| Recovery.EndsAreRecorded | src/recovery/recovery.service.ts:168-230 | once cleared and started an execution ends as completed or failed, whatever other calls do in between, and its end touches no other operation |
| Recovery.OperationsAreCreated | src/recovery/recovery.service.ts:44-72 | in every interleaving the operations are exactly the creations by permitted users, with the flags they were created with |
| Recovery.RecordsArePermitted | src/recovery/recovery.service.ts:91-125 | the approval records are exactly the decisions of permitted approvers on operations created before, in order |
| Recovery.RefusedExactly | src/recovery/recovery.service.ts:48-113 | any other creation or decision is refused, as not found or forbidden, and changes nothing |
| Recovery.DecisionsArePermitted | src/recovery/recovery.service.ts:107-133 | every decision that sets a status goes back to a permitted approver with the same verdict |
| Recovery.RecoveryService.CreateRecoveryOperation | src/recovery/recovery.service.ts:44-89 | a permitted user creates an operation that waits for approval or is ready |
| Recovery.RecoveryService.ApproveRecoveryOperation | src/recovery/recovery.service.ts:91-149 | uninterrupted, records the decision and sets the status |
| Recovery.RecoveryService.ExecuteRecoveryOperation | src/recovery/recovery.service.ts:151-228 | uninterrupted, starts and finishes an operation that passes the checks; a refused one changes nothing |
| Recovery.RecoveryService.ValidateExecutionPermissions | src/recovery/recovery.service.ts:278-309 | the checks in their order |

## Left out

- HTTP controllers, guards, DTOs, logging, metrics, mail and push: no state worth a theorem.
- `src/common/services/rate-limit.service.ts`: the multiplier is clamped on both sides and the limit is a floored product.
- `src/blockchain/services/event-processor.service.ts` and `src/api-security/services/api-abuse-detection.service.ts`: bounded counters, easier than the ones modelled.
- Emergency approvals of `role.service.ts`: a status that moves once.
- `createRoleWithPermissions` of `role.service.ts:323-357`: it changes permissions without clearing any cache, so role permissions are fixed in the model; users are not created or deleted either.
- `invalidatePattern`, called by `role.service.ts:361`, is not part of the cache service; the model takes it to delete the keys with the prefix from both levels.
- Overlapping requests to one store, session or nonce: each method is one step there.
- TokenBucket.TokenBucketRateLimitStore.HitTokenBucket: the class has the Map of the source, which never expires; records in the cache manager appear only in the theorems about expiry.
- SlidingWindow.SlidingWindowRateLimitStore.Hit: windows and limits are positive, resp. non-negative, integers; a window of 0 is not modelled.
- `get` of the sliding window, `get` and `reset` of the Redis store: they use a hard-coded window or a wildcard deletion.
- Rounding of floating-point numbers and of decimal columns: `approvalCount` and its neighbours are integer columns that receive weighted sums.
- Square roots: `Correlation` takes the results of Math.sqrt as inputs that are non-negative and square to the argument.
- `calculateVolatility` in its three versions: a variance and a square root.
- Completeness of a fetch: `starknet.service.ts` asks for one chunk of 100 events without a continuation; the model takes every successful fetch as complete, each save as all or nothing, and blocks as final.
- Event emission after a save, polling timers and the isPolling flag.
- Roles.RoleService.HasRole, and the other methods of the role service: the cache rejects none of their reads, writes and deletions.
- Compression, tags and analytics of the cache; values are the JSON texts, and null is a miss.
- Sessions.SessionService.CreateSession: seven calendar days are 7 * 24 hours; the removal of a session on the same device is unreachable and appears as such.
- Access tokens, the activity log and suspicious-activity detection of the session service.
- Sessions.SessionService.RefreshToken: tokens are unique and identify their row; the signature check is an input.
- WalletAuth.WalletAuthService.VerifySignature: failures of Redis after a valid signature are not modelled.
- CircuitBreaker.NestedCallsOpenExactly: a run of callMethods ends when the breaker first opens; executeMethod and getContractEvents have the same shape.
