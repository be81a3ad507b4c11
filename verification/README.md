# ShopSage AI: verified models of the stateful core

ShopSage AI is a shopping service. Most of it is HTTP, SQL and calls to language models; this
project models the parts that keep state of their own or compute something that is easy to get
wrong, and proves what they promise:

| component | files |
|---|---|
| TTL cache with LRU eviction, and its Redis-backed sibling's in-memory fallback | `TtlCacheModel`, `TtlCache`, `RedisCacheFallback`, `LruInclusion`, `LruLedger`, `CacheRefinement`, `CacheDivergence`, `CacheLaws` |
| Rate limiting: in-process deque, distributed sorted set, in-memory list | `SlidingWindow`, `RedisLimiter`, `LimiterProtocol`, `LimiterBackends` |
| Abusive-IP blocker | `StrikeCounter` |
| Job queue with retries, and the interval scheduler that feeds it | `JobQueueModel`, `JobQueue`, `JobQueueProofs`, `JobQueueDrain`, `Scheduler` |
| Timestamps stored and compared as text | `Timestamps`, `Decimal` |
| Price watches | `PriceWatch` |
| Billing | `Billing` |
| Comparison table printed for the chat, and the card parser that reads it | `PriceText`, `PriceCards`, `PriceTable`, `PriceReport`, `ReportLaws` |
| Plugin registry | `Plugins` |

## How the models are built

Objects whose methods change fields are classes; each method is proved to do, on the whole state,
what a function on values says, and the theorems are about those functions: runs are sequences of
operations, `RunTo` is the state they lead to, and a theorem over `RunTo` speaks about every
reachable state. What an operation does is said a second time, in the fields of its arguments and with
the source's own numbers, by the lemmas of `CacheLaws` and `ReportLaws` and by those named `...Effect`,
`...Of` and `...Says` beside the other models. Loops of the source are loops here, with the functions as their specification.

Clock readings are parameters. They are exact reals in the caches, the limiters and the IP blocker
(`Prelude.Time`) and integer microseconds, the resolution of Python datetimes, in the queue and the
scheduler. Where a theorem needs the clock not to go back, or worker clocks to differ by at most a
given skew, it says so. What a handler, a scraper or a plugin does is a parameter too.

## Where the code differs from its own text

The models follow the code.

- The fallback of the Redis cache announces LRU eviction (redis_backend.py:132) but evicts in
  insertion order (`DictByInsertion`). It answers every get as the LRU cache does exactly when all
  keys fit or there is room for at most one entry (`DropInIff`); writes differ when there is no room at
  all (`StandsInIff`).
- `TTLCache` with `max_size < 1` raises KeyError on every write (ttl_cache.py:206); see
  `SetFailsIffNoCapacity`.
- The limiter's set members are described as unique request ids, but a member is made of the clock
  reading and a per-process number, and two requests of a process at one reading share it. The set
  counts every live request throughout a run exactly when no request of the run, and no undo from
  before a reset, finds its member in the set (`SetStaysExact`). An admitted repeat can be repeated
  without end (`RepeatsAreNeverRefused`); a refused one deletes the entry of the request it repeats and
  makes room beyond the limit (`RefusedRepeatMakesRoom`). For the same reason the two back ends agree
  exactly on runs that repeat no listed reading (`BackendsAgree`).
- The limiter's key lives five seconds longer than its window (redis_rate_limiter.py:118). That is
  enough exactly when worker clocks stay in a band of five seconds around the server's
  (`ExpiryIsHarmlessIff`); the limit holds in a window narrowed by the band in any case
  (`ServerWindowIsSafe`).
- "Exponential backoff" (job_queue.py:239) is quadratic, and `max_retries` bounds the handler runs,
  not the retries after the first run (`RunsAreBounded`).
- `purge_completed` names cancelled jobs, but they never get a completion time, so they are never
  deleted (`FinalForever`).
- A released address starts from zero exactly when blocks last at least as long as the window and,
  besides, its requests do not overlap, or every strike blocks, or blocks outlast the window by the
  longest time a request is served (`ReleasesCleanIff`). With the defaults, an hour and a day, only
  requests that take more than 23 hours can leave a strike behind.
- A query, a link or an error text with a newline can bring its own table rows into the chat; it does
  exactly when a later line of it is a row (`ChatRoundTrip`).

## Model

| member | source | states |
|---|---|---|
| `TtlCacheClass.TTLCache.constructor` | shopsage/cache/ttl_cache.py:48-65 | a new cache is the empty start state of every run |
| `TtlCacheClass.TTLCache.Get` | shopsage/cache/ttl_cache.py:69-95 | store order, statistics and answer after a get: a missing key is a miss; an expired entry is deleted, counted as expiration and miss; a hit moves to the recent end with its hit count raised |
| `TtlCacheClass.TTLCache.Set` | shopsage/cache/ttl_cache.py:97-134 | a known key is replaced and moved to the recent end, a new key is inserted after evicting from the old end, every fiftieth write drops exactly the expired entries; the result is false when the eviction loop raises KeyError |
| `TtlCacheClass.TTLCache.Place` | shopsage/cache/ttl_cache.py:120-128 | overwriting never evicts; inserting evicts exactly what the capacity demands; on KeyError the store is left as the loop left it |
| `TtlCacheClass.TTLCache.CountWrite` | shopsage/cache/ttl_cache.py:130-134 | the write counter drives the periodic cleanup |
| `TtlCacheClass.TTLCache.EvictIfNeeded` | shopsage/cache/ttl_cache.py:204-209 | the popping loop keeps exactly the newest maxSize - 1 entries, counts every pop, and fails exactly for maxSize < 1 |
| `TtlCacheClass.TTLCache.CleanupExpired` | shopsage/cache/ttl_cache.py:211-219 | collect-then-delete equals filtering the store for unexpired entries, each removal counted as an expiration |
| `TtlCacheClass.TTLCache.Delete` | shopsage/cache/ttl_cache.py:136-142 | removes the one entry of the key and nothing else; reports whether there was one |
| `TtlCacheClass.TTLCache.Clear` | shopsage/cache/ttl_cache.py:148-153 | empties the store and reports how many entries it held |
| `TtlCacheClass.TTLCache.InvalidateNamespace` | shopsage/cache/ttl_cache.py:171-178 | removes exactly the keys starting with the namespace and a colon, keeps the order of the rest, reports the number removed |
| `TtlCacheModel.RunKeepsUnique` | shopsage/cache/ttl_cache.py:120-128 | no run ever holds two entries for one key |
| `LruInclusion.InclusionHolds` | shopsage/cache/ttl_cache.py:69-219 | for capacities 1 <= m <= n and the same operations and clock readings, the small store is a subsequence of the large one with equal entries, sizes differ by at most n - m, hits(m) <= hits(n), after every run |
| `LruInclusion.SmallHitsAreLargeHits` | shopsage/cache/ttl_cache.py:69-95 | every hit of the small cache is a hit with the same value in the large one |
| `LruInclusion.EvictInclusion` | shopsage/cache/ttl_cache.py:204-209 | the size bound makes the two evictions compatible: if the large cache evicts, so does the small one |
| `LruInclusion.SubsequenceRetain` | shopsage/cache/ttl_cache.py:171-178 | a bulk removal keeps the inclusion and does not widen the difference in size |
| `LruLedger.StoreByLastTouch` | shopsage/cache/ttl_cache.py:90-93 | in every reachable state the store is strictly ordered by the last write or hit of each key |
| `LruLedger.EvictsOldestTouch` | shopsage/cache/ttl_cache.py:204-209 | a new key evicts nothing while there is room, otherwise exactly one entry, whose last touch is older than all others |
| `LruLedger.CapacityHolds` | shopsage/cache/ttl_cache.py:125-128 | the store never exceeds max_size |
| `LruLedger.SetFailsIffNoCapacity` | shopsage/cache/ttl_cache.py:204-209 | a write raises KeyError if and only if max_size < 1 |
| `LruLedger.LedgerBalances` | shopsage/cache/ttl_cache.py:59-65 | sets = live entries + overwrites + evictions + expirations + reported removals, and hits + misses = gets |
| `CacheRefinement.HitsAreTruthful` | shopsage/cache/ttl_cache.py:69-95 | on any clock and capacity, a hit returns the value last written, unexpired and not removed since: what an unbounded TTL map answers |
| `CacheRefinement.CacheIsTheMap` | shopsage/cache/ttl_cache.py:69-134 | on a non-decreasing clock with at most max_size distinct keys, every get answers exactly as an unbounded map whose entries end at now + ttl, or at now + default_ttl when the write gives none, in spite of periodic cleanup |
| `CacheRefinement.LocalHitsAreTruthful` | shopsage/cache/redis_backend.py:100-112 | the fallback's hits are those of the unbounded map, whatever it evicts |
| `CacheRefinement.FallbackIsTheMap` | shopsage/cache/redis_backend.py:100-137 | on such runs the fallback answers every get exactly as the unbounded map |
| `CacheRefinement.DropInReplacement` | shopsage/cache/redis_backend.py:45-54 | the two caches answer every get alike when nothing has to be evicted |
| `CacheLaws.LivesForItsTtl` | shopsage/cache/ttl_cache.py:105-134 | read back with nothing in between, a write is a hit with its value up to and including now + ttl, or now + default_ttl when it gives none, and a miss after that |
| `CacheLaws.LocalLivesForItsTtl` | shopsage/cache/redis_backend.py:116-139 | the same for the fallback |
| `CacheLaws.HitsAreCounted` | shopsage/cache/ttl_cache.py:69-95 | the hit counter is the number of gets of the run that hit |
| `CacheLaws.ExpirationsOfGet` | shopsage/cache/ttl_cache.py:82-88 | a get raises the expiration counter exactly when it finds an entry whose deadline has passed |
| `CacheLaws.EvictionsOfWrite` | shopsage/cache/ttl_cache.py:125-128 | a write raises the eviction counter by one exactly when its key is new and the store is full |
| `CacheLaws.ExpirationsOfWrite` | shopsage/cache/ttl_cache.py:130-134 | a write that makes the write counter a multiple of fifty drops and counts every entry whose deadline has passed at its second reading; any other drops none |
| `CacheLaws.EntriesRemember` | shopsage/cache/ttl_cache.py:110-128 | every stored entry has the creation time and size hint of its key's last write, and one count for each hit since |
| `CacheLaws.LocalLedgerBalances` | shopsage/cache/redis_backend.py:100-210 | the fallback's books: hits and misses are the gets, and sets = live keys + overwrites + evictions + expirations + reported removals |
| `CacheLaws.LocalSizes` | shopsage/cache/redis_backend.py:100-210 | what each operation of the fallback does to its size and to each counter: one expiration for a get past the deadline, one eviction for a write beyond max_size |
| `CacheDivergence.DropInIff` | shopsage/cache/redis_backend.py:45-54 | for all runs on a non-decreasing clock with at most k distinct keys, the fallback answers every get as the LRU cache if and only if k <= max_size or max_size <= 1 |
| `CacheDivergence.StandsInIff` | shopsage/cache/redis_backend.py:45-54 | with writes included, where the LRU cache raises KeyError for max_size < 1: if and only if k = 0, or max_size >= 1 and (k <= max_size or max_size = 1) |
| `CacheDivergence.AlwaysDropInIff` | shopsage/cache/redis_backend.py:129-137 | without a bound on the keys: if and only if max_size <= 1 |
| `CacheDivergence.DivergingRun` | shopsage/cache/redis_backend.py:132-137 | for every max_size n >= 2, after writing n keys, reading the first and writing one more, the two answer the first key differently |
| `CacheDivergence.DictByInsertion` | shopsage/cache/redis_backend.py:129-137 | in every reachable state the fallback's dictionary is strictly ordered by the insertion of each key since its last removal; rewrites and hits move nothing |
| `CacheDivergence.EvictsOldestInsertion` | shopsage/cache/redis_backend.py:132-137 | a new key evicts nothing while there is room, otherwise exactly the key with the oldest insertion |
| `CacheDivergence.TinyCachesAgree` | shopsage/cache/redis_backend.py:129-137 | with room for at most one entry both caches answer every get alike, whatever is evicted |
| `RedisCacheFallback.RedisCache.Get` | shopsage/cache/redis_backend.py:100-112 | expired keys leave both dictionaries and count as expiration and miss; a hit changes nothing but the counter |
| `RedisCacheFallback.RedisCache.Set` | shopsage/cache/redis_backend.py:129-139 | writes both dictionaries, keeps the position of an existing key, evicts the first inserted key when over max_size |
| `RedisCacheFallback.RedisCache.Delete` | shopsage/cache/redis_backend.py:149-154 | removes the key from both dictionaries and nothing else |
| `RedisCacheFallback.RedisCache.Clear` | shopsage/cache/redis_backend.py:171-175 | empties both dictionaries, reports the size |
| `RedisCacheFallback.RedisCache.InvalidateNamespace` | shopsage/cache/redis_backend.py:205-210 | removes exactly the namespace's keys from both dictionaries, keeps the order of the rest |
| `RedisCacheFallback.LocalRunCoherent` | shopsage/cache/redis_backend.py:70-72 | values and expiry times always have the same keys, on every run |
| `SlidingWindow.RateLimiter.Evict` | shopsage/auth/rate_limiter.py:60-65 | the front-popping loop on one key's deque; other keys untouched |
| `SlidingWindow.RateLimiter.IsAllowed` | shopsage/auth/rate_limiter.py:46-76 | appends the instant when there is room, else counts a refusal; other keys untouched |
| `SlidingWindow.RateLimiter.GetUsage` | shopsage/auth/rate_limiter.py:78-99 | evicts, then reports window count, limit, room left and refusals; other keys untouched |
| `SlidingWindow.RateLimiter.Reset` | shopsage/auth/rate_limiter.py:101-105 | forgets the key's instants and refusals; other keys untouched |
| `SlidingWindow.PoppingIsFiltering` | shopsage/auth/rate_limiter.py:63-65 | on an ascending deque, popping from the front equals filtering all of it |
| `SlidingWindow.RunTracks` | shopsage/auth/rate_limiter.py:60-76 | after every run on a non-decreasing clock the deque is the end of the admitted sequence, what is missing was stale, and the refusal counter is right |
| `SlidingWindow.DecisionIsExact` | shopsage/auth/rate_limiter.py:46-76 | after any run, a request is allowed if and only if fewer requests than its tier's limit (30, 120 for pro, 9999 for enterprise) were admitted in [now - 60, now] since the last reset |
| `SlidingWindow.UsageIsExact` | shopsage/auth/rate_limiter.py:78-99 | get_usage reports that count, the tier's limit of 30, 120 or 9999, their difference or 0, and the refusals since the reset |
| `SlidingWindow.AllowEffect` | shopsage/auth/rate_limiter.py:60-76 | on any deque and any clock: instants go from the front while older than 60 seconds, and then the instant is added if there is room and a refusal counted if not |
| `SlidingWindow.ClosedWindowBound` | shopsage/auth/rate_limiter.py:46-76 | every closed 60-second interval holds at most limit admitted requests, for any mix of tiers up to that limit |
| `RedisLimiter.Redis.Transaction` | shopsage/auth/redis_rate_limiter.py:114-119 | the atomic pipeline of four commands: trim, count, add, and the new expiry, on what the server has not expired; other keys untouched |
| `RedisLimiter.Redis.ZRem` | shopsage/auth/redis_rate_limiter.py:125 | removes one member of one key |
| `RedisLimiter.Redis.ZRemRangeByScore` | shopsage/auth/redis_rate_limiter.py:76 | trims one key's set, on what the server has not expired; the expiry stays |
| `RedisLimiter.Redis.ZCard` | shopsage/auth/redis_rate_limiter.py:77 | counts what the server has not expired, as a command of its own |
| `RedisLimiter.RedisRateLimiter.IsAllowed` | shopsage/auth/redis_rate_limiter.py:53-65 | both back ends: the key's new set or bucket, the answer, the refusal counter; on a server error the request passes; other keys untouched |
| `RedisLimiter.RedisRateLimiter.CheckRedis` | shopsage/auth/redis_rate_limiter.py:109-136 | transaction, then the undo and the refusal counter when the count had reached the limit; fails open on an error in either call, in the second leaving the member in the set |
| `RedisLimiter.RedisRateLimiter.CheckLocal` | shopsage/auth/redis_rate_limiter.py:140-160 | filter the list, refuse at the limit, else append |
| `RedisLimiter.RedisRateLimiter.Prune` | shopsage/auth/redis_rate_limiter.py:148 | the list comprehension keeps exactly the instants after the window start, in order |
| `RedisLimiter.RedisRateLimiter.GetUsage` | shopsage/auth/redis_rate_limiter.py:67-94 | both back ends: trims, then reports count, limit, room left and refusals; a server error reads as no usage |
| `RedisLimiter.RedisRateLimiter.Reset` | shopsage/auth/redis_rate_limiter.py:96-104 | forgets the key in both back ends; a server error is swallowed |
| `RedisLimiter.AskEffect` | shopsage/auth/redis_rate_limiter.py:114-129 | the members scored in the last 60 seconds stay and are counted; a request with room among them is added, one without is not |
| `RedisLimiter.AskLocalEffect` | shopsage/auth/redis_rate_limiter.py:144-160 | the same for the list |
| `RedisLimiter.TierLimits` | shopsage/auth/redis_rate_limiter.py:18-24 | the limits of the five tiers, and the free one for an unknown tier |
| `LimiterProtocol.SetStaysExact` | shopsage/auth/redis_rate_limiter.py:109-133 | however transactions, undos, sweeps, expiries and resets of many workers interleave, with clocks at most skew < 60 s behind: the set has exactly one entry for each unexpired admitted or in-flight request at every point of a run if and only if no request, and no undo from before a reset, of the run finds its member in the set |
| `LimiterProtocol.StepCountsIff` | shopsage/auth/redis_rate_limiter.py:109-133 | one step of any kind keeps that count right if and only if it does not concern an entry of another request |
| `LimiterProtocol.UndosAreOwed` | shopsage/auth/redis_rate_limiter.py:121-126 | on every run the outstanding removals are those of the requests refused so far that have not been done, resets notwithstanding |
| `LimiterProtocol.DistinctAreHarmless` | shopsage/auth/redis_rate_limiter.py:117 | if no two requests of a run share a member, that is so throughout |
| `LimiterProtocol.WindowIsSafe` | shopsage/auth/redis_rate_limiter.py:109-133 | on such runs, with limits up to L, every half-open window of 60 - skew seconds holds at most L admitted requests |
| `LimiterProtocol.RefusalHasCause` | shopsage/auth/redis_rate_limiter.py:121-131 | a request is refused if and only if limit unexpired entries, admitted or in flight, are counted against it |
| `LimiterProtocol.SkewBoundIsTight` | shopsage/auth/redis_rate_limiter.py:115 | for every skew a closed window of 60 - skew seconds can hold more than the limit |
| `LimiterProtocol.CountedIffNotLive` | shopsage/auth/redis_rate_limiter.py:114-133 | whenever the count is right: after a request's transaction and, if refused, its undo it is right again if and only if the member was not in the set; a refused repeat deletes the entry of the request it repeats |
| `LimiterProtocol.ServeIsAskThenUndo` | shopsage/auth/redis_rate_limiter.py:109-133 | a request that nothing interrupts is the transaction step, followed when refused by the undo step |
| `LimiterProtocol.RefusedRepeatMakesRoom` | shopsage/auth/redis_rate_limiter.py:117-131 | for every limit, a refused repeat lets one request more than the limit into one window |
| `LimiterProtocol.ServerRunIsPossible` | shopsage/auth/redis_rate_limiter.py:114-119 | with worker clocks in a band around the server's and the key dropped 65 seconds after the last request on the server's clock, every run is one of the protocol with the band's width as skew |
| `LimiterProtocol.ServerWindowIsSafe` | shopsage/auth/redis_rate_limiter.py:109-133 | so the limit holds on the server's clock, expiries of idle keys included |
| `LimiterProtocol.ExpiryIsHarmlessIff` | shopsage/auth/redis_rate_limiter.py:118 | EXPIRE drops only what the next transaction would trim, on all runs, if and only if the band is at most five seconds wide |
| `LimiterProtocol.RepeatsAreNeverRefused` | shopsage/auth/redis_rate_limiter.py:117 | from any state, once one repeat of a member is admitted, any number of further ones is |
| `LimiterBackends.BackendsAgree` | shopsage/auth/redis_rate_limiter.py:53-94 | on any sequential run on a non-decreasing clock, sorted set (with undo and EXPIRE) and list admit the same requests and report the same usage and refusals at every point if and only if no request repeats the reading of one still listed |
| `LimiterBackends.AskAlikeIffNew` | shopsage/auth/redis_rate_limiter.py:109-160 | one request keeps the two sides related if and only if its reading is not in the list |
| `LimiterBackends.RepeatIsReported` | shopsage/auth/redis_rate_limiter.py:67-94 | after the first repeated reading the usage report differs at once |
| `LimiterBackends.VisibleTrimmed` | shopsage/auth/redis_rate_limiter.py:118 | EXPIRE only ever drops what the next trim would drop anyway |
| `LimiterBackends.RefusalsAreCounted` | shopsage/auth/redis_rate_limiter.py:124-126 | both sides count each refusal once and report the count; a reset forgets it; each request moves the key's deadline to 65 seconds from now |
| `StrikeCounter.AbusiveIPBlocker.Dispatch` | shopsage/security/abusive_ip_blocker.py:41-67 | a blocked address gets 403 and no strike; otherwise the application's answer, and a strike for 401, 403 and 429; other addresses untouched |
| `StrikeCounter.AbusiveIPBlocker.RecordStrike` | shopsage/security/abusive_ip_blocker.py:79-94 | increment, window expiry on the first strike, block at the threshold |
| `StrikeCounter.StrikesBeforeBlock` | shopsage/security/abusive_ip_blocker.py:79-94 | before the first block every closed interval of one window holds at most 2(threshold - 1) strikes |
| `StrikeCounter.BoundIsReached` | shopsage/security/abusive_ip_blocker.py:79-94 | for every threshold that bound is reached without a block |
| `StrikeCounter.CounterIsHonest` | shopsage/security/abusive_ip_blocker.py:84-89 | the running counter counts exactly the latest strikes, all inside its own window |
| `StrikeCounter.CounterStartsFresh` | shopsage/security/abusive_ip_blocker.py:84-89 | the strike that started the running counter came when the counter of the strikes before it had expired |
| `StrikeCounter.StrikeEffect` | shopsage/security/abusive_ip_blocker.py:79-94 | a running counter goes up by one, otherwise a new one starts at one for a window; from the threshold on, the block is set anew for its duration |
| `StrikeCounter.ApplyEffect` | shopsage/security/abusive_ip_blocker.py:41-67 | a request is let in exactly outside a block; only an answer of 401, 403 or 429 to a request that was let in is a strike |
| `StrikeCounter.BlockNeedsThreshold` | shopsage/security/abusive_ip_blocker.py:91-94 | a block is set only by the threshold-th or a later strike within less than one window, and runs from that strike |
| `StrikeCounter.ReleasesCleanIff` | shopsage/security/abusive_ip_blocker.py:41-95 | over all runs with at most w requests of one address served at a time, each answered within d of its arrival: a released address always starts from zero if and only if window <= block duration and (w = 1 or every strike blocks or window + d <= block duration) |
| `StrikeCounter.BlockOutlivesCounter` | shopsage/security/abusive_ip_blocker.py:91-95 | with such blocks, the counter that set a block has expired when the block ends |
| `StrikeCounter.SequentialStrikes` | shopsage/security/abusive_ip_blocker.py:41-67 | requests that do not overlap never strike a blocked address |
| `StrikeCounter.PromptRuns` | shopsage/security/abusive_ip_blocker.py:41-95 | with any overlap, if blocks outlast the window by the longest service time, the counter always expires with the block |
| `StrikeCounter.ShortBlock` | shopsage/security/abusive_ip_blocker.py:84-95 | for every threshold, a block shorter than the window leaves the counter standing at release |
| `StrikeCounter.SlowAnswers` | shopsage/security/abusive_ip_blocker.py:41-95 | for every threshold of at least two, with two requests at a time and service longer than the block outlasts the window, a strike outlives the block |
| `JobQueueClass.JobQueue.Enqueue` | shopsage/workers/job_queue.py:89-135 | one new pending row, due now or after the delay; nothing else changes |
| `JobQueueModel.NextInColumns` | shopsage/workers/job_queue.py:161-167 | the choice of the SELECT in the columns status, scheduled_at, priority and created_at |
| `JobQueueClass.JobQueue.RegisterHandler` | shopsage/workers/job_queue.py:143-146 | the job type has a handler from now on |
| `JobQueueClass.JobQueue.Select` | shopsage/workers/job_queue.py:161-167 | of the pending rows that are due, returns one such that all others have a lower priority or the same priority and no earlier creation time; none if there is none |
| `JobQueueClass.JobQueue.ClaimNext` | shopsage/workers/job_queue.py:156-180 | the selected row becomes running with its start time; nothing else changes |
| `JobQueueClass.JobQueue.Settle` | shopsage/workers/job_queue.py:186-207 | what the handler did decides: completed, retried later, given up, or failed for want of a handler, with the matching counter |
| `JobQueueClass.JobQueue.ProcessNext` | shopsage/workers/job_queue.py:150-207 | runs a pending row that is due, such that every other such row has a lower priority, or the same priority and was created no earlier; claim then finish, no other row changes; or nothing when no row is due |
| `JobQueueClass.JobQueue.RetryJob` | shopsage/workers/job_queue.py:238-253 | back to pending with the new retry count and a delay of 5 n^2 seconds |
| `JobQueueClass.JobQueue.CompleteJob` | shopsage/workers/job_queue.py:209-218 | completed with its completion time |
| `JobQueueClass.JobQueue.FailJob` | shopsage/workers/job_queue.py:223-233 | failed with the clipped error and its completion time |
| `JobQueueClass.JobQueue.CancelJob` | shopsage/workers/job_queue.py:339-348 | cancels exactly pending rows and reports whether it did |
| `JobQueueClass.JobQueue.PurgeCompleted` | shopsage/workers/job_queue.py:352-362 | deletes exactly the rows with a completion time before the cutoff among completed and cancelled ones, and reports how many |
| `JobQueueProofs.LedgerHolds` | shopsage/workers/job_queue.py:89-259 | after any run with one worker, on any clock: at most one job is running, handler runs = completed + retried + failed counters, retried = sum of retry counts over all jobs ever enqueued |
| `JobQueueProofs.RunsAreBounded` | shopsage/workers/job_queue.py:199-207 | no handler runs more than max(1, max_retries) times for a job, and a job given up on used them all |
| `JobQueueProofs.GivingUpTakesTime` | shopsage/workers/job_queue.py:238-253 | a job given up on with max_retries m >= 1 failed no earlier than 5(m-1)m(2m-1)/6 seconds after its first start, if only none of its own attempts is recorded as ended before it started; readings of other threads may come in any order |
| `JobQueueProofs.RetriesTerminate` | shopsage/workers/job_queue.py:199-207 | without new jobs, every finished attempt lowers the sum of max(1, max_retries) - retry_count over open jobs, so attempts end |
| `JobQueueProofs.FinalForever` | shopsage/workers/job_queue.py:161-173 | completed, failed and cancelled jobs never run again, and of these only completed rows are ever purged |
| `JobQueueDrain.DrainExists` | shopsage/workers/job_queue.py:150-197 | from every state in which everything pending is due and nothing runs, repeated process_next with succeeding handlers empties the queue |
| `JobQueueDrain.DrainInOrder` | shopsage/workers/job_queue.py:161-166 | every such drain runs exactly the pending jobs, each once; of any two, the one run first has the higher priority, or the same priority and was created no later |
| `JobQueueDrain.DrainIsTheSort` | shopsage/workers/job_queue.py:161-166 | with distinct creation times among the pending jobs, in every drain each job has a higher priority than the next, or the same priority and an earlier creation time, and this is the only such arrangement |
| `JobQueueDrain.SortIsUnique` | shopsage/workers/job_queue.py:164 | there is only one strictly sorted arrangement of a set of jobs |
| `Timestamps.TextSortsAsTime` | shopsage/workers/job_queue.py:111-116 | for all valid UTC datetimes isoformat texts are ordered as text exactly as the instants, although the fraction is dropped when zero |
| `Timestamps.TextComparisonsAreTimeComparisons` | shopsage/workers/job_queue.py:161-167 | the SELECT's and the DELETE's comparisons of stored text are comparisons of instants |
| `Timestamps.IsoRoundTrip` | shopsage/workers/scheduler.py:148-161 | fromisoformat undoes isoformat, so storing last_run as text loses nothing |
| `Timestamps.InstantOrder` | shopsage/workers/job_queue.py:111-116 | comparing datetimes field by field is comparing instants on the calendar's time line, leap years included |
| `Timestamps.NextDay` | shopsage/workers/job_queue.py:111-116 | on that time line every day is followed by the next one of the Gregorian calendar, at month and year ends too, 86,400 seconds later |
| `Timestamps.FourCenturies` | shopsage/workers/job_queue.py:111-116 | 400 years are 146,097 days, and 1970 begins 719,163 days from the origin |
| `Scheduler.TaskScheduler.RunPass` | shopsage/workers/scheduler.py:141-162 | one pass of the loop: due tasks are handed over in registration order and stamped; an exception ends the pass |
| `Scheduler.TaskScheduler.Register` | shopsage/workers/scheduler.py:79-86 | an unknown name gets a record at the end, a known one a fresh record in its old place; every other task keeps record and place |
| `Scheduler.TaskScheduler.Unregister` | shopsage/workers/scheduler.py:93-98 | takes out the named task and closes the gap, reports whether it was there |
| `Scheduler.TaskScheduler.Switch` | shopsage/workers/scheduler.py:100-112 | changes one flag of the named task in its place, reports whether it was there |
| `Scheduler.PutEffect` | shopsage/workers/scheduler.py:79-86 | registering keeps names unique and leaves exactly the other tasks and the new record |
| `Scheduler.RemoveEffect` | shopsage/workers/scheduler.py:93-98 | unregistering keeps names unique and leaves exactly the other tasks |
| `Scheduler.SetEnabledEffect` | shopsage/workers/scheduler.py:100-112 | switching keeps names unique and changes one flag |
| `Scheduler.BooksAlwaysRight` | shopsage/workers/scheduler.py:137-162 | in every reachable state a task's run count is the number of jobs enqueued for it since registration, last_run is the last of them, and consecutive ones are at least the interval apart |
| `Scheduler.RunCountBounded` | shopsage/workers/scheduler.py:148-162 | run_count <= 1 + elapsed / interval |
| `Scheduler.PassEffect` | shopsage/workers/scheduler.py:143-162 | a pass hands over only due tasks and changes only those; without failures it hands over all due tasks |
| `Scheduler.PassDistinct` | shopsage/workers/scheduler.py:143-162 | a pass enqueues no task twice |
| `Scheduler.PassRunsIff` | shopsage/workers/scheduler.py:143-166 | a pass hands over a task if and only if it is enabled, has never run or ran at least its interval ago, and no such task at or before it in the table fails |
| `Scheduler.PassInOrder` | shopsage/workers/scheduler.py:143-162 | the tasks are handed over in the order of the table |
| `Scheduler.DisabledStaysPut` | shopsage/workers/scheduler.py:100-112 | whatever happens, a disabled task that is not enabled, registered again or unregistered is handed over at no pass and keeps its record |
| `Scheduler.PunctualFromFirstPass` | shopsage/workers/scheduler.py:137-172 | every enabled task with a positive interval, from the first pass that reaches it on, while it is left alone, no pass is cut off before it, other tasks come and go and passes are at most c apart: its jobs are at least interval and less than interval + c apart, and the latest is less than an interval old at every pass |
| `Scheduler.EnabledTaskIsPunctual` | shopsage/workers/scheduler.py:137-172 | the same for a task that has run and is not overdue |
| `PriceWatch.GroupWatches` | shopsage/workers/price_checker.py:121-127 | the grouping loop yields distinct queries, each with exactly its watches in table order, none empty, none lost |
| `PriceWatch.InterleavingsAgree` | shopsage/workers/price_checker.py:129-136 | any interleaving of updates to different watches leaves the same table |
| `PriceWatch.CycleDistinct` | shopsage/workers/price_checker.py:121-136 | no two tasks of a cycle touch the same watch |
| `PriceWatch.CycleLosesNothing` | shopsage/workers/price_checker.py:111-171 | however a cycle's tasks interleave, every active watch whose query has a usable offer gets that query's best price once, and every other row is untouched |
| `PriceWatch.BestIsCheapest` | shopsage/workers/price_checker.py:149-156 | the chosen listing has no error and a price above zero, and no other such listing is cheaper; none is chosen exactly when there is no such listing |
| `PriceWatch.BestIsFirst` | shopsage/workers/price_checker.py:149-156 | of equally cheap listings the first is chosen |
| `PriceWatch.ThreeTries` | shopsage/workers/price_checker.py:142-184 | a task asks the scrapers once, and again after each exception, three times at most; it fails if all three raise |
| `PriceWatch.AttemptRaises` | shopsage/workers/price_checker.py:147-171 | an attempt raises exactly when the scrapers do, or when an update does and there is a listing to record |
| `PriceWatch.LowestIsMinimum` | shopsage/monetise/deal_alerts.py:124-156 | over any updates of a table, other watches' interleaved, lowest_price of a watch that had none is the least price recorded for it, current_price the last, triggered says whether the last reached the target |
| `PriceWatch.LowestOverRuns` | shopsage/monetise/deal_alerts.py:77-177 | after every run of the store, creations and deactivations included, every watch knows the least and the last price recorded since its creation |
| `PriceWatch.RetriesSettle` | shopsage/workers/price_checker.py:142-184 | however its earlier attempts failed, half-way through the group included, a task that ends without an exception leaves every watch of the group at the best price of its last attempt; it touches no other watch |
| `PriceWatch.OwnUpdatesDecide` | shopsage/workers/price_checker.py:129-171 | any interleaving that keeps each watch's own updates in order, repeats included, leaves the same table |
| `PriceWatch.RetryingCycleSettles` | shopsage/workers/price_checker.py:111-184 | however the retrying tasks of a cycle interleave, every watch whose task ends without an exception shows the best price of that task's last attempt, and rows of no active watch are untouched |
| `PriceWatch.DealAlertStore.CreateWatch` | shopsage/monetise/deal_alerts.py:77-103 | one new active row with the given user, query and target, without prices or link, under an unused id |
| `PriceWatch.DealAlertStore.UpdatePrice` | shopsage/monetise/deal_alerts.py:124-166 | sets current price, link and trigger of one row and lowers its lowest price if the price is lower; reports whether the target is reached; an unknown id changes nothing |
| `PriceWatch.DealAlertStore.DeactivateWatch` | shopsage/monetise/deal_alerts.py:168-177 | deactivates exactly the user's own watch |
| `PriceWatch.DealAlertStore.GetAllActiveWatches` | shopsage/monetise/deal_alerts.py:179-186 | exactly the active rows, each once |
| `PriceWatch.PriceCheckerWorker.CheckQuery` | shopsage/workers/price_checker.py:142-184 | up to three attempts: the fetches made, the table after the updates of all of them, the watches and alerts counted, and one error if every attempt raised |
| `PriceWatch.PriceCheckerWorker.RunAttempt` | shopsage/workers/price_checker.py:147-176 | one attempt: a fetch, then one update per watch of the group when an offer is usable, up to the update that raises |
| `PriceWatch.PriceCheckerWorker.CheckCycle` | shopsage/workers/price_checker.py:111-140 | in a cycle without exceptions each normalized query of an active watch is fetched exactly once, and each active row with a usable listing of its query ends with the price and link of a cheapest one, the lower of that and its lowest price, and the trigger of its target; every other row is as it was |
| `Billing.TotalIsSumIff` | shopsage/billing/billing_engine.py:74-99 | for any price table the total equals the sum of the rounded breakdown if and only if no rounding tie meets an odd whole part |
| `Billing.TotalIsSum` | shopsage/billing/billing_engine.py:20-99 | for every plan in use and all usage the total equals that sum |
| `Billing.NoOddTie` | shopsage/billing/billing_engine.py:20-42 | the reason: ties arise only on the pro plan, whose base fee and agent price are even |
| `Billing.BillMonotone` | shopsage/billing/billing_engine.py:74-99 | more usage never lowers the total or a line of the breakdown |
| `Billing.BillOf` | shopsage/billing/billing_engine.py:74-99 | calls and runs above the allowance, and only these, are charged: per thousand calls to the nearest cent, per run exactly, and the total is nearest to their exact sum with the fee |
| `Billing.BillsInUse` | shopsage/billing/billing_engine.py:20-42 | the totals of the plans in use in their own numbers; other plans are never billed |
| `Billing.ProjectionIsNearest` | shopsage/billing/billing_engine.py:116-129 | the projection is the whole number of cents nearest to the base fee plus both overages times days in month / day, a tie going to the even one |
| `Billing.NoOverageNoGrowth` | shopsage/billing/billing_engine.py:120-123 | a bill without overage projects to its base fee on any day |
| `Billing.OnlyTheSumIsScaled` | shopsage/billing/billing_engine.py:120-123 | the projection depends on the two overages only through their sum, and moves with the fee by an even difference exactly |
| `Billing.ProjectionCoversBill` | shopsage/billing/billing_engine.py:101-132 | on every day of the month the projection is at least the current bill, and equal to it on the last day |
| `Billing.OddTieBreaksSum` | shopsage/billing/billing_engine.py:92-97 | a table with an odd whole part at a tie does break the sum |
| `Billing.RoundShift` | shopsage/billing/billing_engine.py:94-97 | adding whole cents commutes with half-even rounding if and only if no tie changes parity |
| `PriceText.CleanUndoesPrinting` | shopsage/tool/price_scraper.py:89-97 | cleaning a printed whole amount, rupee sign and thousands commas included, gives the amount back |
| `PriceText.CleanReadsCents` | shopsage/tool/price_scraper.py:89-97 | with a point and two decimals the cents are read too |
| `PriceText.KeepOfCommas` | shopsage/tool/price_scraper.py:93 | thousands grouping is only punctuation to the cleaner |
| `PriceText.CleanIgnores` | shopsage/tool/price_scraper.py:93 | characters other than digits and points make no difference to the price read |
| `PriceText.UnreadableIsZero` | shopsage/tool/price_scraper.py:94-97 | a text without a digit, or with two points, is read as zero |
| `PriceText.CommasGroupThrees` | shopsage/tool/price_scraper.py:399 | the commas of a printed amount stand before every third digit from the right, and none in front |
| `PriceText.NoLeadingZero` | shopsage/tool/price_scraper.py:399 | a printed whole number starts with 0 only if it is 0 |
| `Decimal.RoundIsNearest` | shopsage/tool/price_scraper.py:394-399 | formatting without decimals gives a whole number at most half away, the even one of two equally near |
| `Decimal.NearestIsRound` | shopsage/tool/price_scraper.py:394-399 | and it is the only such number |
| `PriceCards.ParserMeetsExpression` | static/js/price_card.js:26-39 | the row parser finds a row if and only if the regular expression matches the line, and returns the trimmed captures of any match |
| `PriceCards.CharacterClasses` | static/js/price_card.js:27 | which characters the classes of the expression match |
| `PriceCards.CapturesByExample` | static/js/price_card.js:27 | texts that each capture of the expression accepts and rejects |
| `PriceCards.RenderEntries` | static/js/price_card.js:20-40 | the loop over the lines |
| `PriceTable.RowRoundTrip` | shopsage/tool/price_scraper.py:393-399 | for every printable result the parser reads a printed row back: same store, price, MRP, discount and rating text |
| `PriceTable.ReportRoundTrip` | shopsage/tool/price_scraper.py:379-421 | one card per row in the same order, no other line yields a card, and exactly the cheapest store's rows are marked best |
| `PriceTable.SortIsStableSort` | shopsage/tool/price_scraper.py:376 | the sort permutes, ascends, and keeps the order of equal prices |
| `PriceReport.SplitOfJoin` | static/js/price_card.js:16 | splitting the joined text gives the lines of each part, for parts with newlines of their own |
| `PriceReport.SplitUndoesJoin` | static/js/price_card.js:16 | lines without newlines come back as they were |
| `PriceReport.Partition` | shopsage/tool/price_scraper.py:365-366 | the two list comprehensions: valid results and errors, in order |
| `PriceReport.FormatComparison` | shopsage/tool/price_scraper.py:354-421 | the text built with embedded newlines is the joined report, or the apology when nothing is valid |
| `PriceReport.RenderPriceCards` | static/js/price_card.js:14-43 | the entries of the split text, or null when there are none |
| `PriceReport.ChatRoundTrip` | static/js/price_card.js:14-43 | from results to text to cards, for any query, links and error texts: one card per valid result, cheapest first, equal prices in listing order, with the printed cells and the right best marks; and no other card if and only if no later line of the query, of a link or of the error texts is itself a table row |
| `PriceReport.SingleLinesRoundTrip` | static/js/price_card.js:14-43 | exactly those cards when queries, links and error texts are single lines |
| `ReportLaws.ChatShowsResults` | static/js/price_card.js:14-43 | the card of every listing without error and with a price, in the fields of the listing: its store; price and MRP to the nearest rupee, grouped in thousands, discount to the nearest percent, N/A where there is none; rating and reviews; marked as best exactly for the cheapest store. These cards stand together, and are all the page shows exactly when no other line is a row |
| `ReportLaws.SingleLinesShowResults` | static/js/price_card.js:14-43 | the page shows exactly these cards when queries, links and error texts are single lines |
| `ReportLaws.SortedInOrder` | shopsage/tool/price_scraper.py:365-377 | the listings with a card are those without error and with a price above zero, in ascending price, equal prices in listing order |
| `ReportLaws.BestLineSays` | shopsage/tool/price_scraper.py:384-386 | the best line names the cheapest store with its price and, if it has one, its discount |
| `ReportLaws.SavingsSay` | shopsage/tool/price_scraper.py:401-405 | a saving is printed exactly when the last listing is dearer than the first: the difference to the nearest rupee and the two stores |
| `ReportLaws.LinksSnoc` | shopsage/tool/price_scraper.py:407-414 | each listing with a link adds its store and link to the list, in order; without any there is no list |
| `ReportLaws.NotesSnoc` | shopsage/tool/price_scraper.py:416-419 | each failed store adds its name and error text to the note, after a comma |
| `ReportLaws.ApologyText` | shopsage/tool/price_scraper.py:368-373 | without a valid listing the text is the apology with the query and the failed stores, or all stores |
| `ReportLaws.ReportText` | shopsage/tool/price_scraper.py:379-421 | otherwise it is title, head, rows, saving, links and notes, in this order |
| `ReportLaws.HeadText` | shopsage/tool/price_scraper.py:379-391 | the rulings, the empty line and the column headings |
| `ReportLaws.ColumnsAlign` | shopsage/tool/price_scraper.py:390-399 | where the cells fit their columns, the bars of rows and headings stand at the same places |
| `Plugins.PluginManager.Register` | shopsage/plugins/manager.py:88-121 | appends to the order and to its type's list; a duplicate or failing plugin changes nothing; every type's list stays the subsequence of the order with that type |
| `Plugins.PluginManager.Unregister` | shopsage/plugins/manager.py:123-142 | removes the name from all tables, which stay in agreement; an unknown name changes nothing |
| `Plugins.PluginManager.SetEnabled` | shopsage/plugins/manager.py:179-191 | changes one flag of a known plugin |
| `Plugins.PluginManager.ExecutePlugins` | shopsage/plugins/manager.py:144-177 | the result is the fold over the plugins of that type in registration order, disabled and failing ones as identity |
| `Plugins.FoldOfEnabled` | shopsage/plugins/manager.py:162-177 | running a type is running its enabled plugins only |
| `Plugins.PipelineSteps` | shopsage/plugins/manager.py:162-177 | every plugin gets the context that the one before left: what an enabled plugin returns if it does not raise, else what that one was given |
| `Plugins.OfTypeSnoc` | shopsage/plugins/manager.py:108-111 | a type's plugins are those of the registration order, in that order |
| `Prelude.WithoutCloses` | shopsage/plugins/manager.py:123-142 | removing a name leaves what stood before and after it in order |

## Left out

- Locks and thread interleaving inside `TTLCache` and `RateLimiter`: calls are sequential; a second clock reading inside a write is a separate parameter.
- The Redis-connected branches of `RedisCache`, its Redis errors and SQLite errors.
- RedisLimiter.RedisRateLimiter.CheckRedis: a call that raises is taken not to have reached the server; the protocol has no errors.
- StrikeCounter.ReleasesCleanIff: window and block duration are positive; an unanswered request strikes nobody.
- Thin wrappers: `exists`, `get_ns`, `set_ns`, `stats`, `size`, the hit-rate percentage, logging, the FastAPI dependencies.
- LimiterProtocol.SetStaysExact: a reset is one step, although the server's key and the worker's counters are cleared one after the other.
- StrikeCounter.AbusiveIPBlocker.RecordStrike: INCR and EXPIRE are one step, so a crash between them, which would leave a counter without expiry, is not modelled; neither are a missing Redis client and the extraction of the address from the request.
- JobQueueProofs.LedgerHolds: one worker; a claim is one step, a crash while a job is running and several workers on one table are not modelled. Ids are numbers in place of random UUIDs, and a handler's effect on other state is not modelled.
- The table in `Scheduler` keeps no payload, description or handler, and `RunPass` records the names handed to the queue in place of calling it.
- PriceWatch.PriceCheckerWorker.CheckQuery: what a notification says is not modelled; `lower().strip()` is a parameter, and an update that raises has changed nothing.
- PriceWatch.PriceCheckerWorker.CheckCycle: a cycle without exceptions, its tasks one after another; `RetryingCycleSettles` is about interleaved tasks with retries.
- PriceWatch.DealAlertStore.UpdatePrice: `last_checked` is not kept, because it differs between interleavings of one cycle.
- Floating point: money, prices and durations are exact; prices are whole paise and discounts tenths of a percent.
- PriceText.CleanUndoesPrinting: digits are the ASCII digits; the cleaner's `\d` and Python's `float` also accept other decimal digits.
- PriceReport.ChatRoundTrip: store names are word characters and ratings print as digits and points; the link carries its affiliate parameters already.
- Plugins.PluginManager.ExecutePlugins: a plugin that changes the shared context before it raises is not modelled; a failing plugin leaves the context as it was.
- HTTP routes, templates, scraping, language-model and search code, webhooks, feature flags, retention, audit and the other single-statement stores: they would add only easy members.
