# Verified model of the high-concurrency order framework

This project models, in Dafny 4.11, the stateful algorithms of the Go service
and proves what they guarantee over whole runs. `dafny verify dfyconfig.toml`
checks everything.

Time is an integer number of nanoseconds handed to each step, from a clock that
never goes back. Floating point is `real`. Redis, the databases, Kafka and the
loader are maps, queues or answers left open. Where the program changes fields
in place, a class does the same and every method is proved against a function
on values; the theorems are about that function over all runs. Where goroutines
interleave, their atomic steps are the actions of a state machine and the
theorems range over every run of it.

| file | component |
|---|---|
| SlotRings.dfy, HotKeys.dfy | hot-key detector: drifting slot ring, reports, cleanup |
| MultiLevelCache.dfy | reading an order through L1, L2 and the database |
| DoubleDelete.dfy | delayed double delete against concurrent readers and writers |
| DistributedLock.dfy | the Redis lock and all its clients |
| RateLimiter.dfy | token bucket |
| CircuitBreaker.dfy | three-state breaker |
| OrderAdmission.dfy | how CreateOrder composes breaker, bucket, lock and write |
| BatchWriter.dfy, BehaviorBatch.dfy | buffered behaviour log and its multi-row INSERT |
| Consumer.dfy | Kafka retry, dead letters, commit |
| OrderStore.dfy, OrderNumbers.dfy | order upsert and order numbers |
| ReplicaPool.dfy | round-robin replica choice |
| SqlSplitter.dfy | splitting SQL scripts |
| Decimals.dfy, Options.dfy | shared numerals and the option type |

## Where the code and its documentation differ

The model follows the code. Each difference is a theorem.

- Half-open probes: `docs/需求文档.md:290` promises at most five; the gate counts
  recorded successes, so it admits every request (`HalfOpenAdmitsAll`).
- Slow calls: `docs/需求文档.md:289` gives a threshold for slow calls; they are
  counted but never decide anything (`DurationsDoNotMatter`).
- Delayed double delete (`docs/需求文档.md:276`): it is safe exactly when L2 is
  cleared before L1, an L2 hit with its L1 fill is one step, every fill comes less
  than the delay after its read, and Redis does not refuse the second L2 delete
  (`SafeExactly`). The code clears in that order; nothing enforces the last two,
  and `internal/cache/multi_level_cache.go:143-155` does not meet the second, so
  what the code can have is a fresh L2 (`L2SafeExactly`).
- Dead letters (`internal/mq/consumer.go:213`): a message whose dead letter is
  refused is committed all the same (`LostExactly`).
- Backoff: `backoff *= 2` is int64 arithmetic; the doubling law ends after 37
  retries (`WaitedUpTo`).
- Replica counter (`internal/database/rwdb.go:50`): the comment speaks of uint64,
  the field is uint32, and fairness over all runs then needs a number of replicas
  that divides 2^32 (`FairExactly`).
- Order numbers (`internal/service/order_service.go:408`): unique in one process
  only within 100000 calls (`CollisionDistance`), and not across the 64-bit wrap
  (`WrapCollision`). The format in `docs/需求文档.md` is an older one.
- Sliding window (`docs/需求文档.md`, section 6.2): the counted window is not n slots
  long; it always covers n-1 slots and can reach back (2n-1)·I - n
  (`WindowSandwich`, `OvercountsExactly`, `UndercountsExactly`), beyond n slots
  exactly when (n-1)·I > n (`WindowOverrunExactly`). An idle hot key is never aged
  out by the cleanup (`IdleKeyKept`).
- Behaviour log (`internal/service/analytics_service.go:63`): an entry is dropped
  when the channel is full at both tries (`LogOrderCreated`, `DroppedExactly`), and
  one sent after the writer returned is never flushed (`StopFlushesEverything`).
- A closed breaker may open again on failures from before it closed, whatever its
  settings as long as the failure threshold is below 1 (`ReopensOnOldFailures`).

## Model

| member | source | states |
|---|---|---|
| SlotRings.SlotRing.constructor | internal/cache/hot_key_detector.go:28-33 | a new ring has zero counters, stands at slot 0 and remembers when it was made |
| SlotRings.SlotRing.Advance | internal/cache/hot_key_detector.go:36-53 | the in-place loop does what entering that many slots does, at most a full turn, and moves `lastTick` to now only if a slot was entered |
| SlotRings.SlotRing.Inc | internal/cache/hot_key_detector.go:56-60 | only the current slot grows, by one |
| SlotRings.SlotRing.Total | internal/cache/hot_key_detector.go:63-71 | the loop returns the sum of all slots |
| SlotRings.WindowSandwich | internal/cache/hot_key_detector.go:36-71 | for every access history the sum after the latest access lies between the number of accesses aged at most (n-1)·I and the number aged at most (2n-1)·I - n, for n slots of length I |
| SlotRings.OvercountsExactly | internal/cache/hot_key_detector.go:36-71 | the upper bound is the best possible: for every ring some history makes the sum exceed the number of accesses up to a given age if and only if that age is below (2n-1)·I - n |
| SlotRings.UndercountsExactly | internal/cache/hot_key_detector.go:36-71 | so is the lower: the sum can fall short of the number of accesses up to a given age if and only if that age is above (n-1)·I |
| SlotRings.WindowOverrunExactly | internal/cache/hot_key_detector.go:52 | because the tick is not a slot boundary, a ring can count accesses older than its n slots, if and only if (n-1)·I > n |
| SlotRings.SumIsKept | internal/cache/hot_key_detector.go:63-71 | the sum is the number of logged accesses not yet dropped |
| SlotRings.ShiftsTimed | internal/cache/hot_key_detector.go:48-51 | ages in every bucket stay within bounds as slots are entered |
| HotKeys.HotKeyDetector.RecordAccess | internal/cache/hot_key_detector.go:94-125 | counts the access in the key's ring, made if missing, with slots of windowSize/slots, answers whether its sum exceeds the threshold and then marks the key, and leaves every other key alone |
| HotKeys.HotKeyDetector.IsHot | internal/cache/hot_key_detector.go:128-132 | answers whether the key is marked |
| HotKeys.HotKeyDetector.QuietKeys | internal/cache/hot_key_detector.go:160-168 | collects exactly the keys whose stored sum is at most a tenth of the threshold |
| HotKeys.HotKeyDetector.Forget | internal/cache/hot_key_detector.go:174-182 | deletes exactly those keys, from both maps |
| HotKeys.HotKeyDetector.CleanupPass | internal/cache/hot_key_detector.go:159-183 | every key takes its cleanup step, and hot keys stay a subset of counted keys |
| HotKeys.BusyKeyIsReported | internal/cache/hot_key_detector.go:94-125 | with I = windowSize/slots and cleanups more than (n-1)·I apart, a key with more than threshold + threshold/10 accesses that young is always reported hot |
| HotKeys.ReportedKeyIsBusy | internal/cache/hot_key_detector.go:115-116 | a reported key really had more than threshold accesses aged at most (2n-1)·I - n, and so within less than two windows, whatever the cleanups |
| HotKeys.MarkedExactly | internal/cache/hot_key_detector.go:118-122 | in every run a key is marked hot if and only if some visit since its ring was made reported it |
| HotKeys.IdleKeyKept | internal/cache/hot_key_detector.go:159-183 | however many cleanups pass without an access, a key is forgotten if and only if its last sum was already at most a tenth of the threshold |
| MultiLevelCaches.MultiLevelCache.Get | internal/cache/multi_level_cache.go:129-179 | whatever expires, is evicted, filled or locked meanwhile, the answer agrees with the database, only a hot key can end in an error or in no answer, and the read is counted once; with nobody else running, an L1 hit, an L2 hit and a miss each give their own answer and move their own counter |
| MultiLevelCaches.MultiLevelCache.Stats | internal/cache/multi_level_cache.go:305-321 | hits and misses never exceed the total, and add up to it when no read is under way |
| MultiLevelCaches.MultiLevelCache.LoadFromDB | internal/cache/multi_level_cache.go:182-210 | answers what the database has; an order stays in L1 unless L1 turns it away, the null marker is not waited for |
| MultiLevelCaches.MultiLevelCache.LoadWithLock | internal/cache/multi_level_cache.go:213-244 | a true answer or none, an error only if Redis failed; with nobody else running, the database is asked exactly when the lock is free, which it is afterwards, and otherwise L2 answers or nobody |
| MultiLevelCaches.MultiLevelCache.Set | internal/cache/multi_level_cache.go:89-96 | keeps the cache truthful and leaves the encoded order in L2 when Redis answers |
| MultiLevelCaches.MultiLevelCache.SetNull | internal/cache/multi_level_cache.go:119-125 | the same for the null marker of an absent order |
| MultiLevelCaches.MultiLevelCache.Invalidate | internal/cache/multi_level_cache.go:247-252 | run alone, both layers lose the key and nothing else; a refused Redis delete goes unnoticed |
| MultiLevelCaches.MultiLevelCache.DeletePass | internal/cache/multi_level_cache.go:256-270 | run alone, one pass of the double delete does the same |
| MultiLevelCaches.MultiLevelCache.DbQuery | internal/service/order_service.go:364-389 | answers the database and fills the cache truthfully, with a null marker for an absent order |
| MultiLevelCaches.MultiLevelCache.GetOrder | internal/service/order_service.go:272-300 | reading through the cache gives exactly what a direct lookup gives, or passes on a Redis error |
| DoubleDelete.DoubleDeleteIsSafe | internal/cache/multi_level_cache.go:254-270 | under the four conditions, once the second pass of a write has finished, no layer holds or will hold an older value |
| DoubleDelete.SafeExactly | internal/cache/multi_level_cache.go:254-270 | for every delay of at least one time unit the protocol is safe if and only if L2 is cleared first, an L2 hit and its backfill are one step, fills come within the delay of their read, and Redis never refuses the L2 delete of the second pass; the first pass may lose its own |
| DoubleDelete.L2SafeExactly | internal/cache/multi_level_cache.go:254-270 | L2 alone is safe if and only if the last two conditions hold, in either order and also with the backfill as the program does it |
| DoubleDelete.L1FirstBreaks | internal/cache/multi_level_cache.go:265-268 | clearing L1 before L2 lets an L2 hit bring the old value back |
| DoubleDelete.SplitBackfillBreaks | internal/cache/multi_level_cache.go:143-155 | a backfill separate from its L2 read can restore the old value after both deletes, even one that takes no time at all |
| DoubleDelete.LateFillBreaks | internal/cache/multi_level_cache.go:187-206 | a fill no earlier than the delay after its load survives both deletes |
| DoubleDelete.LostDeleteBreaks | internal/cache/multi_level_cache.go:266 | a refused L2 delete in the second pass, whose error is ignored, leaves the old value in L2 |
| DoubleDelete.SinglePassLeavesStale | internal/service/order_service.go:252 | a single delete pass, as after an asynchronous write, can leave an older value in L2 |
| DoubleDelete.PlayClearedL2 | internal/service/user_profile_service.go:99-110 | in every run each write's finished deletes have cleared L2 as they should, and only newer values can return |
| DoubleDelete.PlayClearedL1 | internal/service/user_profile_service.go:99-110 | the same for L1 |
| DoubleDelete.CachedKey.DeletePass | internal/cache/multi_level_cache.go:257-261 | a pass deletes from L2 and then from L1, with anything in between, and counts as the two deletes of the protocol that clears L2 first |
| DoubleDelete.CachedKey.Invalidate | internal/cache/multi_level_cache.go:247-252 | the plain invalidation deletes from L1 first and is one pass of the other protocol |
| DoubleDelete.CachedKey.InvalidateWithDelay | internal/cache/multi_level_cache.go:256-270 | the two passes with the sleep between them take the write through its four deletes; L1 ends empty, and L2 no older than the write under its two conditions |
| DoubleDelete.CachedKey.UpsertProfile | internal/service/user_profile_service.go:94-110 | after a write and both passes, at any later time, neither layer is older than the write, each under its conditions |
| DistributedLocks.RedisKey.SetNX | internal/lock/distributed_lock.go:35-38 | takes the key exactly when no live entry holds it, with the expiry asked for |
| DistributedLocks.RedisKey.CompareAndDelete | internal/lock/distributed_lock.go:50-64 | a live entry with this token is gone afterwards, an entry with another token is untouched |
| DistributedLocks.RedisKey.Lock | internal/lock/distributed_lock.go:30-47 | a key free at the first poll is taken there; whatever others do between polls, success leaves our entry with the expiry of the successful poll; failure means another's live entry at a poll past the deadline, or a zero wait |
| DistributedLocks.MutualExclusion | internal/lock/distributed_lock.go:30-64 | in every reachable state two attempts both believe they hold the lock only if the earlier one's time to live had elapsed |
| DistributedLocks.LateUnlockHarmless | internal/lock/distributed_lock.go:50-64 | no unlock removes the entry of another attempt that still has a lease |
| DistributedLocks.UnlockFrees | internal/lock/distributed_lock.go:50-64 | in every run an unlock by a holder within its lease that reaches Redis leaves the key free |
| DistributedLocks.NextTryAfterUnlock | internal/lock/distributed_lock.go:34-47 | the next attempt that tries after it gets the lock, whichever it is |
| DistributedLocks.TryExactly | internal/lock/distributed_lock.go:34-47 | in every run a try gets the lock if and only if the key has no entry or an expired one, and gives up if and only if it may not wait on |
| DistributedLocks.BodiesNeverOverlap | internal/lock/distributed_lock.go:67-74 | if every body ends within its time to live, two bodies never overlap |
| DistributedLocks.OverrunMeetsSecondHolder | internal/lock/distributed_lock.go:67-74 | a body longer than its time to live can overlap a second one |
| DistributedLocks.ComparingIsNeeded | internal/cache/multi_level_cache.go:222-230 | leases exclude each other if and only if unlocking compares the token; the hot-key load lock deletes without comparing |
| RateLimiter.WriteRateLimiter.constructor | internal/resilience/rate_limiter.go:21-28 | a new bucket is full |
| RateLimiter.WriteRateLimiter.Refill | internal/resilience/rate_limiter.go:73-81 | the level grows with the elapsed time, up to the capacity |
| RateLimiter.WriteRateLimiter.TryAcquire | internal/resilience/rate_limiter.go:32-41 | grants exactly when a whole token is there after the refill, and takes it |
| RateLimiter.WriteRateLimiter.WaitAcquire | internal/resilience/rate_limiter.go:44-62 | with others free to call between polls, waiting is one attempt at each poll up to the first that is granted, and none was granted before |
| RateLimiter.NoTrace | internal/resilience/rate_limiter.go:44-62 | a poll that finds no token, like a reading of the level, changes nothing for any later call |
| RateLimiter.WriteRateLimiter.Tokens | internal/resilience/rate_limiter.go:65-70 | reports the integer part of the level without taking any |
| RateLimiter.RefillTwice | internal/resilience/rate_limiter.go:73-81 | a refill in between does not change what a later refill finds |
| RateLimiter.GreedyIsOptimal | internal/resilience/rate_limiter.go:32-41 | at every prefix of every call sequence, readings interleaved, at least as many requests have been granted as under any policy over the same bucket whose tokens never go below zero |
| RateLimiter.GreedyIsAPolicy | internal/resilience/rate_limiter.go:32-41 | the bucket's own grants are such a policy, so the optimum is reached |
| RateLimiter.AdmissionBound | internal/resilience/rate_limiter.go:32-41 | in any interval at most capacity + refillRate per second of its length is granted, whatever came before |
| RateLimiter.BurstIsCapacity | internal/resilience/rate_limiter.go:21-41 | a new bucket grants exactly its capacity at once |
| CircuitBreakers.CircuitBreaker.constructor | internal/resilience/circuit_breaker.go:66-86 | a new breaker is closed with zero counters |
| CircuitBreakers.CircuitBreaker.Allow | internal/resilience/circuit_breaker.go:101-116 | true if and only if closed, or open for more than the timeout, or half-open with fewer successes than maxRequests |
| CircuitBreakers.CircuitBreaker.RecordSuccess | internal/resilience/circuit_breaker.go:119-134 | one more success and no failure; half-open it closes exactly when the count reaches maxRequests, otherwise the state stays |
| CircuitBreakers.CircuitBreaker.RecordFailure | internal/resilience/circuit_breaker.go:137-149 | one more failure and no success; half-open it opens, otherwise the state stays |
| CircuitBreakers.CircuitBreaker.WindowReset | internal/resilience/circuit_breaker.go:190-205 | clears the four window counters and nothing else |
| CircuitBreakers.CircuitBreaker.StateTransition | internal/resilience/circuit_breaker.go:208-233 | changes no counter of the window; closed it opens exactly at the threshold, open it half-opens exactly after the timeout |
| CircuitBreakers.CountersAreHistory | internal/resilience/circuit_breaker.go:119-149 | in every run the counters, that of slow calls included, are the counts since the latest window reset, the half-open count is the number of successes since the latest change with no failure among them, and it is zero elsewhere |
| CircuitBreakers.ChangedThere | internal/resilience/circuit_breaker.go:183-187 | the latest change the history lemmas speak of is a real change of state |
| CircuitBreakers.SameSinceChange | internal/resilience/circuit_breaker.go:183-187 | and the state has been the same ever since |
| CircuitBreakers.HistoryDecides | internal/resilience/circuit_breaker.go:127-148 | the next state is decided by the history alone: trip exactly at a tick with failures/total at the threshold, half-open exactly after the timeout, close exactly on the maxRequests-th success without a failure |
| CircuitBreakers.TripsExactly | internal/resilience/circuit_breaker.go:218-223 | in every run a closed breaker opens if and only if a check finds the failures' share reached |
| CircuitBreakers.DueExactly | internal/resilience/circuit_breaker.go:218-223 | the share is reached if and only if there is an outcome and failures >= threshold times outcomes |
| CircuitBreakers.HalfOpensExactly | internal/resilience/circuit_breaker.go:224-228 | in every run an open breaker half-opens if and only if a check comes more than the timeout after it opened |
| CircuitBreakers.ClosesExactly | internal/resilience/circuit_breaker.go:127-148 | in every run a half-open breaker opens on any failure and closes on the maxRequests-th success |
| CircuitBreakers.GateExactly | internal/resilience/circuit_breaker.go:101-116 | in every run a request is admitted if and only if the breaker is closed, or open for more than the timeout, or half-open with maxRequests at least 1 |
| CircuitBreakers.SlowExactly | internal/resilience/circuit_breaker.go:119-124 | a call is slow from one whole millisecond above the threshold on |
| CircuitBreakers.HalfOpenAdmitsAll | internal/resilience/circuit_breaker.go:111-112 | in every reachable half-open state every request is admitted if and only if maxRequests is at least 1 |
| CircuitBreakers.ReopensOnOldFailures | internal/resilience/circuit_breaker.go:183-187 | some run closes and opens again with no failure since the close if and only if the failure threshold is below 1 |
| CircuitBreakers.DurationsDoNotMatter | internal/resilience/circuit_breaker.go:119-124 | runs that differ only in how long successful calls took differ only in the slow count |
| CircuitBreakers.TripSpacing | internal/resilience/circuit_breaker.go:208-233 | trips i and j of a run are more than j - i timeouts apart |
| CircuitBreakers.TripRate | internal/resilience/circuit_breaker.go:208-233 | an interval of length T holds at most T/timeout + 1 trips |
| CircuitBreakers.ClosedGateAfterTrip | internal/resilience/circuit_breaker.go:108-110 | for the whole timeout after a trip, whatever happens, Allow is false |
| OrderAdmission.OrderService.CreateOrder | internal/service/order_service.go:68-90 | refused by the gate nothing changes and the label is async; admitted, a whole token is taken if there is one; only then, with the lock, the write is made, and a good one is labelled sync and counted as a success, a failed one async and counted as a failure |
| OrderAdmission.OrderService.CreateSync | internal/service/order_service.go:147-198 | without the lock nothing is counted; with it a good write raises the successes alone and is labelled sync, a failed one the failures alone and is labelled async |
| OrderAdmission.OrderService.CreateOrderForceSync | internal/service/order_service.go:96-144 | takes no token, asks no gate, counts the outcome of its write and is always labelled sync |
| OrderAdmission.OutcomesExactly | internal/service/order_service.go:176-184 | in every reachable state the breaker's successes and failures are the good and the failed database writes since the latest window reset |
| OrderAdmission.PhaseExactly | internal/service/order_service.go:68-90 | in every run a check lets a call through exactly as the gate says, a token is spent exactly when a whole one is there, and lock and write lead where they answer |
| OrderAdmission.TokensAccountedFor | internal/service/order_service.go:147-198 | in every reachable state tokens spent == outcomes recorded + lock fallbacks + calls in between |
| OrderAdmission.EndsOnce | internal/service/order_service.go:68-90 | what a call has become at its end never changes |
| OrderAdmission.WritesBounded | internal/service/order_service.go:75-89 | however calls interleave, of those whose token check falls in an interval at most capacity + refill of its length go on to the database write |
| OrderAdmission.NoWriteAfterTrip | internal/service/order_service.go:76-83 | a call checked within the timeout after a trip is turned away and never reaches the database |
| BatchWriter.AnalyticsService.TrySend | internal/service/analytics_service.go:68-69 | a non-blocking send accepts exactly when fewer than 10000 entries wait, and then the entry is the last of the channel |
| BatchWriter.AnalyticsService.LogOrderCreated | internal/service/analytics_service.go:64-80 | with writer and producers free to run between the signal and the second try, the entry is kept if and only if one of the two tries finds room, and then it is in the channel behind what that try found there |
| BatchWriter.DroppedExactly | internal/service/analytics_service.go:68-79 | an entry that met a full channel is dropped if and only if others have filled every place the writer freed in between |
| BatchWriter.SignalMakesRoom | internal/service/analytics_service.go:83-104 | a writer waiting in its select makes room in two steps after the signal |
| BatchWriter.AnalyticsService.Flush | internal/service/analytics_service.go:115-130 | hands over a fresh copy of the batch, leaves earlier copies alone and restarts the slice |
| BatchWriter.AnalyticsService.TakeEntry | internal/service/analytics_service.go:146-150 | moves the oldest entry from the channel to the end of the reused slice without touching flushed batches, and flushes the whole slice at 200 |
| BatchWriter.AnalyticsService.WriterTick | internal/service/analytics_service.go:152-153 | a tick flushes what has been collected and leaves the slice empty |
| BatchWriter.AnalyticsService.WriterDrain | internal/service/analytics_service.go:91-104 | one turn of the drain loop, with producers free to run between turns |
| BatchWriter.AnalyticsService.DrainAndFlush | internal/service/analytics_service.go:91-104 | with no producer active the drain empties channel and batch into flushed batches, in order |
| BatchWriter.AlwaysConserved | internal/service/analytics_service.go:107-156 | in every reachable state accepted == flushed batches, then the batch, then the channel, in FIFO order, and every flushed batch has 1 to 200 entries |
| BatchWriter.AcceptedExactly | internal/service/analytics_service.go:68-79 | in every reachable state the accepted entries are, in order, those of exactly the sends that met a channel with room |
| BatchWriter.KeptIsFlushed | internal/service/analytics_service.go:107-156 | every entry sent into a channel with room before the writer stops ends in a flushed batch |
| BatchWriter.FlushedIsFinal | internal/service/analytics_service.go:119-121 | a flushed batch never changes afterwards |
| BatchWriter.AtMost600Parameters | internal/database/postgres.go:126-150 | in every reachable state the statement inserting a flushed batch has 3 to 600 parameters |
| BatchWriter.StopFlushesEverything | internal/service/analytics_service.go:138-140 | when the writer returns everything accepted until then is flushed; what is sent later stays in the channel |
| BehaviorBatch.JoinStrings | internal/database/postgres.go:152-161 | the loop joins the parts with the separator between them |
| BehaviorBatch.LogBehaviorBatch | internal/database/postgres.go:126-150 | the placeholders read back from the finished SQL are 1..3m, once each and in order, the columns are user_id, event_type, event_data, and arguments 3i, 3i+1, 3i+2 are these three of entry i |
| BehaviorBatch.RowText | internal/database/postgres.go:138-143 | row i holds placeholders 3i+1 to 3i+3, the third cast to jsonb, and the time of the insert |
| BehaviorBatch.RowsRead | internal/database/postgres.go:138-146 | any number of generated rows reads back as 1, 2, 3, .. |
| Consumer.ProcessWithRetry | internal/mq/consumer.go:224-260 | calls until success, exhaustion or cancellation, at most maxRetries + 1 times, with the waits of the doubling int64 backoff |
| Consumer.SuccessExactly | internal/mq/consumer.go:224-260 | the loop reports success if and only if some call within the limit would succeed with no wait before it cut short, or the limit is negative |
| Consumer.WaitedUpTo | internal/mq/consumer.go:226-241 | k retries wait 100·(2^k − 1) ms if and only if k is at most 37 |
| Consumer.BackoffBeforeSuccess | internal/mq/consumer.go:226-250 | a call that succeeds on retry k, the earlier ones having failed, has waited at most 100·(2^k − 1) ms, and exactly that if and only if k is at most 37 |
| Consumer.EventConsumer.HandleMessage | internal/mq/consumer.go:193-219 | retries, offers a failed message to the dead-letter queue if there is one, and commits in any case |
| Consumer.EventConsumer.ConsumeLoop | internal/mq/consumer.go:158-220 | every fetched message meets exactly one such fate, and dead letters and offsets are logged in order |
| Consumer.ArrivedExactly | internal/mq/consumer.go:158-192 | wherever a round stands, it contributes its message there if it fetched one, and nothing otherwise |
| Consumer.FateOfMessage | internal/mq/consumer.go:193-218 | success on the last call, or offered after failing, or no queue, or a negative limit that skips the handler; at most maxRetries + 1 calls |
| Consumer.LostExactly | internal/mq/consumer.go:195-218 | a message is committed and lost exactly when the broker takes the commit and either no call within the limit would succeed and the queue is missing or refuses it, or a negative limit skips the handler |
| OrderStore.Orders.DbWrite | internal/service/order_service.go:310-317 | inserts the order or updates amount, status and update time of the existing row |
| OrderStore.Orders.DbWrites | internal/service/order_service.go:234-260 | a sequence of writes has the effect of the replay |
| OrderStore.FirstAndLast | internal/service/order_service.go:310-312 | each row has user and creation time of its first write and amount, status and update time of its last |
| OrderStore.ReplayIndependence | internal/service/order_service.go:234-260 | with one payload per order number, duplicates and order of delivery make no difference to the table |
| OrderStore.ReplayIndependenceExactly | internal/service/order_service.go:310-312 | and only with one payload per order number |
| OrderNumbers.Generator.GenerateOrderNo | internal/service/order_service.go:409-413 | advances the 64-bit counter and prints user, counter and random part |
| OrderNumbers.RoundTrip | internal/service/order_service.go:412 | an order number parses back to user, counter mod 100000 and random mod 1000 |
| OrderNumbers.PrintedExactly | internal/service/order_service.go:412 | a number is ORD, the user without leading zeros, five digits and three, and nothing else |
| OrderNumbers.SameNumber | internal/service/order_service.go:409-413 | two numbers are equal exactly when user and reduced counter are |
| OrderNumbers.CollisionDistance | internal/service/order_service.go:410 | until the counter wraps, calls i and j print the same number exactly for the same user and a distance divisible by 100000 |
| OrderNumbers.UniqueWithin100000 | internal/service/order_service.go:410 | calls fewer than 100000 apart never collide |
| OrderNumbers.WrapCollision | internal/service/order_service.go:410 | across the 64-bit wrap two calls print the same number if and only if the user is the same and their distance leaves 51616 modulo 100000 |
| ReplicaPool.RWDB.Replica | internal/database/rwdb.go:51-57 | the master without replicas; otherwise the next replica, always in range, after advancing the 32-bit counter |
| ReplicaPool.FairWithoutWrap | internal/database/rwdb.go:55-56 | over any run without a wrap any two replicas' counts differ by at most 1 |
| ReplicaPool.FairAcrossWraps | internal/database/rwdb.go:55-56 | every wrap adds at most 1 to that difference |
| ReplicaPool.FairExactly | internal/database/rwdb.go:55-56 | a difference of at most 1 over all runs holds if and only if the number of replicas divides 2^32 |
| SqlSplitter.SplitSQL | internal/database/schema.go:121-141 | the pieces with their semicolons and the remainder rebuild the script, every piece has even quotes and no bare semicolon, and for every such division of the script exactly its pieces and trimmed remainder are returned |
| SqlSplitter.DivisionIsUnique | internal/database/schema.go:126-136 | a script divides into such pieces and remainder in one way only |
| SqlSplitter.PieceExactly | internal/database/schema.go:126-136 | a piece has evenly many single quotes, and oddly many before each semicolon in it |
| SqlSplitter.TailExactly | internal/database/schema.go:137-139 | the remainder adds nothing if and only if it is blank |
| SqlSplitter.TrimSpaceExactly | internal/database/schema.go:137 | what is trimmed is the one text with only white space around it and none at its ends |
| SqlSplitter.WhiteSpaceExactly | internal/database/schema.go:137 | white space is exactly the listed characters |

## Left out

- SlotRings.SlotRing.Inc: counters are unbounded, not int64; 2^63 accesses are out of reach.
- CircuitBreakers.CircuitBreaker.RecordSuccess: the counters are unbounded, and each method is one step although the program uses separate atomics and two lock sections.
- HotKeys.HotKeyDetector.RecordAccess: one atomic step; an access racing with a cleanup of the same key is not modelled.
- MultiLevelCaches.MultiLevelCache.GetOrder: assumes the database answers; the production loader reports a database error as an absent order and would cache that. It also assumes that JSON gives every order in the database back (`Faithful`; `FaithfulCodecExists` shows this can be met); a number above 2^53 does not survive the generic JSON object.
- MultiLevelCaches.MultiLevelCache.Invalidate: run alone; how deletes interleave with everything else is `DoubleDelete.CachedKey`.
- MultiLevelCaches.MultiLevelCache.DeletePass: run alone, likewise.
- DoubleDelete.DoubleDeleteIsSafe: one pod and one authoritative copy of the data; replica lag and the L1 caches of other pods are not modelled.
- DistributedLocks.MutualExclusion: clients and Redis share one clock, and tokens are unique by assumption.
- BatchWriter.AlwaysConserved: a batch counts as flushed once handed to the inserting goroutine; a failed insert is only logged there.
- Consumer.EventConsumer.ConsumeLoop: one worker; redelivery after a crash or between workers is covered only through OrderStore.ReplayIndependence.
- OrderStore.Orders.DbWrite: the auto-increment id, DECIMAL rounding and DATETIME precision of MySQL.
- Cache lifetimes and their jitter: any entry may vanish at any time instead.
- Event publishing to Kafka, its compensation log and Elasticsearch indexing: best-effort side effects.
- The degraded modes without a database or without Kafka, which persist nothing.
- HTTP handlers, middleware, authentication, health probes, tracing, configuration loading and logging: plumbing.
- The shared Redis key space: L2 data and load locks share one map, other users of Redis do not appear.
