# MindBalancer, modelled and proved in Dafny

MindBalancer is an in-process scheduler for LLM requests: it caches and deduplicates answers, picks
servers, watches them with circuit breakers, retries on other servers, limits rates, routes by rules,
and talks MySQL to its administrators. This project models the stateful mechanisms behind those
services and proves what they guarantee. `dafny verify dfyconfig.toml` checks all of it.

Code that updates objects in place is modelled by classes and methods with loops; each such method is
proved against a specification function or predicate on values, and the results about whole runs are
lemmas about that specification. Clocks, random numbers, compression, hashing, the regular expression
library, upstream replies and storage answers are parameters. A step under one lock, on one channel or
by one atomic instruction is one step of the protocol models.

| file | what it holds |
|---|---|
| `Common.dfy` | Option, octets, minimum and maximum, truncating division |
| `Lru.dfy` | recency lists as values: lookup, removal, eviction, subsequences |
| `CacheSpec.dfy` | the sharded LRU and TTL cache as a function of its event history, and its theorems |
| `Retention.dfy` | what the cache keeps: events that leave a key alone, and how long a key is sure to stay |
| `Cache.dfy` | the cache objects: entries, shards with a map, a list and a byte total, the cache |
| `SingleFlight.dfy` | the request deduplication protocol for any number of callers |
| `Conservation.dfy` | overlapping requests against the in-flight counters, one atomic operation a step |
| `Proxy.dfy` | one request's retry loop over the balancer object |
| `Circuit.dfy` | the circuit breaker, its histories, the breaker and manager objects |
| `Fairness.dfy` | weighted round robin as arithmetic on a counter |
| `Balancer.dfy` | loading, filtering, selecting and releasing servers |
| `BreakerRuns.dfy` | the balancer's breakers over whole histories of requests |
| `Retry.dfy` | backoff delays and the retry loop |
| `RateLimit.dfy` | the fixed-window limiter: steps, cleanup, what callers are told, the sliding bound, the object |
| `Glob.dfy`, `Router.dfy` | glob translation; rule loading, matching and routing |
| `Mysql.dfy` | trimming and splitting of texts; packets, length-encoded strings, result sets, handshake parsing |
| `Admin.dfy` | the VALUES tokenizer |

## What the proofs say about the code

Some properties one might expect hold only under a condition. The code is modelled as it is, and the
condition is proved:

- A Set leaves a shard within max(budget, the new entry's size) if and only if it inserts, or it overwrites
  and the sum after the exchange still fits (`StoreWithinBudgetIff`): overwriting evicts nothing
  (`UpdateIgnoresBudget`). With a constant byte limit and no overwrite that grows an entry, max(budget,
  largest entry) holds in every reachable state (`BudgetHoldsWithoutGrowth`); with such an overwrite it
  is broken in three calls (`OverwriteBreaksBudget`, `BudgetIsBroken`).
- `Connections` equals the number of requests holding a server if and only if no failed reselection
  has released it twice (`ConservedIffNoFailedReselection`); every such step costs exactly one
  (`ConnectionsAreHolders`), and a run that ends at -1 exists whenever retries are allowed
  (`DoubleReleaseHappens`).
- At most one call runs per key all through a schedule if and only if no step of it takes a call into fn
  beside another, either by finding caching off, or by finding it on and no flight for the key
  (`SingleFlightIff`). A new caller gets in beside a running one if and only if caching is off, or the
  running one found it off and the key has no flight (`NewCallerJoinsIff`). Both ways happen: disabling
  the cache while a call runs (`DisablingBreaksSingleFlight`), and enabling it while a call that found
  it off still runs (`EnablingBreaksSingleFlight`, `SecondFnWithTheCacheOn`).
- After any load a request meets a nil round-robin counter if and only if the algorithm uses counters,
  its hostgroup had none before, no server was listed for it, and one of hostgroup 0 can take the
  request (`Balancer.SelectAfterLoading`, for any breakers and earlier counters); one
  server in hostgroup 0 and a request for hostgroup 5 will do (`Balancer.NilCounterHappens`).
- A key that was set stays until expiry unless named or cleared, as long as the keys of its shard read or
  set since still fit beside it (`RecentKeysStay`), and an insert pushes it out exactly when they do not
  (`EvictedIff`); in every other way keys leave each other alone (`DeleteTakesOneKey`,
  `UnrelatedEventsDoNotShow`).
- Any k minutes hold at most (k + 1) * L - 1 admissions under a limit of L, one less than the usual
  (k + 1) * L, and that number is reached (`SlidingBound`, `SlidingBoundIsReached`).
- `simpleMatch` agrees with the glob meaning except for its two shortcuts: an empty pattern accepts
  every text and a lone `*` crosses newlines (`SimpleMatchIsGlobExceptShortcuts`).
- A result set is decoded to the lines sent if and only if each is shorter than 65536 octets
  (`ResultRoundTripIff`).
- A list of quoted VALUES comes back if and only if no item exposes a comma outside quotes and every
  item but the last ends outside quotes (`TokenizerRoundTripIff`); so `'it's'` alone comes back, and an
  item with its own quote around a separator is read as two (`OwnQuoteSplits`).

## Model

| member | source | states |
|---|---|---|
| Cache.Shard.Remove | internal/cache/cache.go:411-416 | unlinking one element removes exactly its key from map, list and byte total, which keep agreeing |
| Cache.Shard.MoveToFront | internal/cache/cache.go:262-262 | the element goes to the front and the others keep their order |
| Cache.Shard.ItemsAreTheList | internal/cache/cache.go:248-252 | the map holds a key exactly when the recency list does, and maps it to that list element |
| Cache.Cache.Get | internal/cache/cache.go:239-280 | the new cache and the answer are those of the specification: disabled, missing, expired, corrupt or hit |
| Cache.Cache.SetWithTTL | internal/cache/cache.go:288-369 | the new cache is that of the specification, the evictions counted are the entries that went and the bytes saved those that compression saved |
| Cache.Cache.EvictIfNeeded | internal/cache/cache.go:389-399 | drops from the back just until the bytes fit or nothing is left |
| Cache.Cache.EvictByCount | internal/cache/cache.go:343-349 | drops from the back until the count is below the cap |
| Cache.Cache.Delete | internal/cache/cache.go:419-427 | the new cache is that of the specified step; Retention.DeleteTakesOneKey says what that leaves |
| Cache.Cache.Clear | internal/cache/cache.go:430-438 | every shard is empty |
| Cache.Cache.CleanupShard | internal/cache/cache.go:588-605 | what is left is exactly the unexpired entries in their old order |
| Cache.Cache.CollectExpired | internal/cache/cache.go:592-599 | collects exactly the expired elements, each once |
| Cache.Cache.Stats | internal/cache/cache.go:441-450 | memory and item count reported are the true totals over all shards |
| CacheSpec.RunDistinct | internal/cache/cache.go:325-368 | in every reachable state a shard holds a key at most once |
| CacheSpec.EntriesAreCurrent | internal/cache/cache.go:318-369 | every entry in every reachable state is that of the latest accepted Set of its key, with no Delete or Clear since |
| CacheSpec.GetRefinesLastWrite | internal/cache/cache.go:239-369 | a Get answers with the bytes of the latest accepted Set, not past its expiry, or misses; it hits exactly when the entry is still there and unexpired |
| CacheSpec.ResidentMeansAnswered | internal/cache/cache.go:248-277 | what the hit counter counts is exactly the Gets that are answered |
| CacheSpec.CompressedIff | internal/cache/cache.go:303-316 | a value is kept compressed if and only if that is on, it is long enough and gzip makes it shorter; otherwise as it is |
| CacheSpec.RecencyOrder | internal/cache/cache.go:262-366 | in every reachable state each shard is strictly ordered by last hit or Set |
| CacheSpec.EvictionTakesTheOldest | internal/cache/cache.go:389-408 | whatever an insert evicts was touched longer ago than everything it keeps |
| CacheSpec.MakeRoomEvictsOnlyWhatItMust | internal/cache/cache.go:343-399 | no insert evicts more than it must: with one entry more the new one would not fit, by count or by bytes |
| CacheSpec.CountBound | internal/cache/cache.go:343-349 | no shard ever holds more than max(10, MaxSize / NumShards) entries |
| CacheSpec.ByteBound | internal/cache/cache.go:294-369 | with MaxItemSize never above a limit no shard ever holds more than the count bound times that limit |
| CacheSpec.InsertRespectsBudget | internal/cache/cache.go:340-368 | after inserting a new key under a byte limit the size is at most max(budget, the entry's own size) |
| CacheSpec.UpdateIgnoresBudget | internal/cache/cache.go:325-337 | overwriting a key evicts nothing, whatever the budget: every other entry stays, and the bytes change by the difference |
| CacheSpec.StoreWithinBudgetIff | internal/cache/cache.go:324-368 | a Set ends within max(budget, its own size) exactly when it inserts, or overwrites and the new sum fits |
| CacheSpec.BudgetHoldsWithoutGrowth | internal/cache/cache.go:318-369 | with a constant byte limit and no overwrite that grows an entry, every reachable shard is within max(budget, largest entry ever stored) |
| CacheSpec.OverwriteBreaksBudget | internal/cache/cache.go:325-337 | two keys that fit together, then the first one overwritten by too large a value, leave the shard over budget |
| CacheSpec.BudgetIsBroken | internal/cache/cache.go:325-337 | such a history exists: one shard, one MiB, three Sets |
| CacheSpec.InclusionForAllRuns | internal/cache/cache.go:239-369 | without byte limits, the same history leaves the smaller cache a subsequence of the larger one, shard by shard, differing in size by at most the difference of the caps |
| CacheSpec.LargerCacheNeverLosesAHit | internal/cache/cache.go:239-280 | every Get that hits in the smaller cache hits in the larger one with the same value |
| CacheSpec.WholeCountBound | internal/cache/cache.go:343-349 | the whole cache never holds more than max(MaxSize, 10 * NumShards) entries |
| CacheSpec.WholeByteBound | internal/cache/cache.go:294-369 | with a constant MaxItemSize the whole cache never holds more bytes than that many items of the largest size |
| CacheSpec.WholeBudgetHoldsWithoutGrowth | internal/cache/cache.go:340-399 | with a constant byte limit and no overwrite that grows an entry, the whole cache stays within max(MaxMemoryMB, NumShards times the largest entry ever stored) |
| Retention.DeleteTakesOneKey | internal/cache/cache.go:419-427 | in every reachable state, after a Delete its own key misses and every other key is answered as before |
| Retention.UnrelatedEventsDoNotShow | internal/cache/cache.go:239-280 | reading or deleting another key, or an earlier cleanup, changes no answer |
| Retention.EvictedIff | internal/cache/cache.go:340-399 | an insert pushes a key out if and only if that key, what is in front of it and the new entry do not fit together, by count or by bytes |
| Retention.RecentKeysStay | internal/cache/cache.go:239-438 | in every run a key that was set is answered with that value until its expiry, unless it is set or deleted itself or its shard cleared, or so many other keys of its shard were read or set since that they no longer fit beside it |
| Retention.SetIsAnswered | internal/cache/cache.go:239-369 | a Set no longer than MaxItemSize is answered until its time is over; a longer one, or one with the cache off, changes nothing |
| Retention.SettingsHold | internal/cache/cache.go:631-638 | a new configuration holds field by field until the next one; SetEnabled overrules its switch only |
| SingleFlight.AtMostOneFnPerKey | internal/cache/cache.go:494-526 | in every interleaving two calls that run fn for one key are the same call, unless one bypassed a disabled cache |
| SingleFlight.NobodyBypasses | internal/cache/cache.go:495-498 | while caching stays enabled no call bypasses deduplication |
| SingleFlight.SingleFlightWhileEnabled | internal/cache/cache.go:495-512 | while caching stays enabled at most one fn runs per key |
| SingleFlight.SingleFlightIff | internal/cache/cache.go:494-526 | two calls inside fn for one key are one call all through a schedule if and only if no step takes a call into fn beside another |
| SingleFlight.StaysExclusiveIff | internal/cache/cache.go:495-512 | one step keeps it so exactly when it does not let a call bypass, or lead, beside another one for its key |
| SingleFlight.NewCallerJoinsIff | internal/cache/cache.go:495-512 | a new caller gets into fn beside a running call if and only if caching is off, or the running call found it off and the key has no flight |
| SingleFlight.DisablingBreaksSingleFlight | internal/cache/cache.go:495-498 | one way to fail: disabling the cache while any fn runs lets the next caller run a second one |
| SingleFlight.EnablingBreaksSingleFlight | internal/cache/cache.go:495-512 | the other: enabling it while a call that found it off runs fn lets the next caller lead a flight beside it |
| SingleFlight.SecondFnWithTheCacheOn | internal/cache/cache.go:495-512 | a run from the start that ends with two calls of fn for one key and the cache on |
| SingleFlight.DeleteTakesItsOwnFlight | internal/cache/cache.go:519-523 | a delayed delete removes its own leader's flight, never a later one |
| SingleFlight.ResultComesFromFn | internal/cache/cache.go:511-525 | in every schedule a call that was not deduplicated and is past fn holds the very bytes and error that fn returned to it at some step |
| SingleFlight.FnReturnsOnce | internal/cache/cache.go:494-526 | fn returns to a call once at most |
| SingleFlight.FollowersNeverRunFn | internal/cache/cache.go:503-509 | a deduplicated call has never been inside fn |
| SingleFlight.FollowersShareTheLeadersResult | internal/cache/cache.go:503-517 | every follower returns exactly the bytes and error that fn returned, at some step, to the leader of its key's flight |
| SingleFlight.LeaderFinishes | internal/cache/cache.go:512-525 | a leader's own steps after fn returns close its flight on those bytes and that error, and return them |
| SingleFlight.DeleteLetsTheNextCallerLead | internal/cache/cache.go:500-523 | once the delayed delete has run, the next caller of the key runs fn again |
| SingleFlight.WaitersAreNeverStranded | internal/cache/cache.go:503-517 | a waiting follower's leader is still running, or its done channel is closed |
| Conservation.ConnectionsAreHolders | internal/proxy/proxy.go:225-375 | in every reachable state of any interleaving Connections is the number of requests holding the server, less the number of steps of the history that released it a second time |
| Conservation.ConservedIffNoFailedReselection | internal/proxy/proxy.go:336-375 | Connections equals the holders exactly when no failed reselection released the server twice |
| Conservation.FailedReselectionReleasesTwice | internal/proxy/proxy.go:336-375 | a request that holds nothing takes one connection off its old server when reselection fails |
| Conservation.FailedIsTheCount | internal/proxy/proxy.go:336-375 | the correction term is the number of second releases in the history |
| Conservation.DoubleReleaseHappens | internal/proxy/proxy.go:313-375 | whenever retries are allowed, twelve steps of one request leave it done and the server's Connections at -1 |
| Conservation.TotalsAddUp | internal/balancer/balancer.go:183-323 | TotalReqs is Connections plus successful releases plus Errors whenever no request is inside an operation on the server |
| Conservation.IdleAtTheEnd | internal/proxy/proxy.go:225-375 | when all requests are done a server shows zero connections, less its failed reselections |
| Conservation.ChargeIsMatched | internal/balancer/balancer.go:183-323 | each counter operation matches what the request holds after it, on its own server and no other |
| Conservation.ReleaseCarriesTheVerdict | internal/proxy/proxy.go:225-375 | in every reachable state a release under way reports what last happened to its request: success after a cache hit, a shared result or an answer, failure after anything else |
| Conservation.OutcomesAreVerdicts | internal/balancer/balancer.go:311-323 | in every interleaving Errors counts exactly the outcomes reported after a failure |
| Conservation.AttemptsAreLimited | internal/retry/retry.go:73-109 | no request ever goes beyond attempt MaxRetries |
| Proxy.ExecuteChatCompletion | internal/proxy/proxy.go:313-375 | the accounts afterwards are those of a path of servers each released before the next was acquired; attempt j called the j-th of them, all attempts before the last were retried, and the error says how the last one ended, NoServer meaning that nobody passed the filter after the release, or that a search for a minimum found them too dear |
| Proxy.FollowsDo | internal/proxy/proxy.go:333-365 | given the path, the loop stops where retry.Do stops, with the result of retry.Do |
| Proxy.Switch | internal/proxy/proxy.go:336-353 | a retry releases the used server as failed and then acquires another, and finds none exactly when nobody passes the filter then or a search for a minimum finds them too dear |
| Proxy.FinishedNet | internal/proxy/proxy.go:329-375 | a finished request gives back its first server's connection, and one more of the last server's if a switch found none; totals, errors and connections stay accounted for |
| Circuit.Breaker.Allow | internal/circuit/circuit.go:59-83 | takes the specified step, and a yes never leaves the breaker open; Circuit.AllowRefusesIff says when that step refuses |
| Circuit.AllowRefusesIff | internal/circuit/circuit.go:59-83 | after every history Allow refuses if and only if the breaker is open and timeout has not passed since the latest failure |
| Circuit.ClosedUntilTheThreshold | internal/circuit/circuit.go:59-118 | a breaker that never met threshold failures in a row is closed and admits |
| Circuit.WithoutFailureAlwaysAdmits | internal/circuit/circuit.go:59-124 | without a failure a breaker is closed and admits, whatever its thresholds |
| Circuit.RecoveryCloses | internal/circuit/circuit.go:67-103 | after a late enough Allow, successes alone keep an open breaker half-open until the last one due closes it |
| Circuit.ProbeFailureReopens | internal/circuit/circuit.go:106-124 | one failure before that opens it again |
| Circuit.ResetCloses | internal/circuit/circuit.go:149-157 | Reset closes the breaker and forgets both counts, but not when the latest failure was |
| Circuit.Breaker.RecordSuccess | internal/circuit/circuit.go:86-103 | takes the specified step |
| Circuit.Breaker.RecordFailure | internal/circuit/circuit.go:106-124 | takes the specified step |
| Circuit.Manager.Get | internal/circuit/circuit.go:189-200 | the named breaker, made fresh and closed at first use, with all others untouched |
| Circuit.LastFailureIsLatest | internal/circuit/circuit.go:106-124 | lastFailure is the latest failure of the whole history, wherever it was recorded |
| Circuit.ClosedCountsTrailingFailures | internal/circuit/circuit.go:86-124 | in Closed the counter is the trailing run of failures and stays below the threshold |
| Circuit.OpenCountsOn | internal/circuit/circuit.go:106-124 | outside Closed a run of failures reached threshold at some index, the breaker has been away from Closed since, and failures is threshold plus every Failure after it |
| Circuit.CountersAreFolds | internal/circuit/circuit.go:59-124 | in every state both counters follow event by event, given the breaker's status at each event |
| Circuit.OpensAtTheThreshold | internal/circuit/circuit.go:113-118 | a closed breaker opens exactly at the failure that completes a run of threshold |
| Circuit.OpenAdmitsOnlyAfterTimeout | internal/circuit/circuit.go:67-75 | an open breaker admits exactly when timeout has passed since the latest failure, even one recorded while open |
| Circuit.HalfOpenPhase | internal/circuit/circuit.go:67-103 | behind every half-open state is a phase begun by a late enough Allow with no failure since, whose successes are the counter |
| Circuit.ClosingNeedsRecovery | internal/circuit/circuit.go:59-124 | from Open back to Closed without Reset there is a half-open phase with exactly successThreshold successes and no failure |
| Fairness.FairOverAWindow | internal/balancer/balancer.go:195-220 | any W consecutive selections pick server i exactly weight_i times |
| Balancer.Balancer.Tally | internal/balancer/balancer.go:190-221 | n selections in a row on the object pick a server exactly as often as the arithmetic says, weight_i times when n is the total weight |
| Fairness.FairOverAnyStretch | internal/balancer/balancer.go:195-220 | any q * W + r selections pick server i between q * weight_i and q * weight_i + min(weight_i, r) times |
| Fairness.FairWithoutWeights | internal/balancer/balancer.go:201-206 | without weights any len(servers) consecutive selections pick each server once |
| Fairness.ZeroWeightIsNeverPicked | internal/balancer/balancer.go:208-218 | a server without weight is never picked while another has some |
| Fairness.SlotIsStretch | internal/balancer/balancer.go:212-218 | an index is picked exactly for the positions of its stretch of the cumulative weights |
| Fairness.CounterCounts | internal/balancer/balancer.go:204-210 | the counter adds one a selection and returns to 0 after the largest uint64 |
| Balancer.AtPosition | internal/balancer/balancer.go:212-220 | the cumulative loop returns the server that owns the position, and the final fallback is never reached |
| Balancer.SelectLeastConnections | internal/balancer/balancer.go:223-245 | the first server with fewest connections for its weight, stated by multiplication: it has fewer than q for each unit of weight whenever any other has, and every earlier one misses a bound that it meets; nil exactly when none is below the largest int64 |
| Balancer.SelectLatencyBased | internal/balancer/balancer.go:274-299 | the first server with least latency for its weight, stated by multiplication as above, unknown latencies counting as 100 ms; nil exactly when none is below the largest int64 |
| Balancer.FirstMinimumIsLeastPerWeight | internal/balancer/balancer.go:230-242 | the first smallest quotient is the first value least for its weight, without division |
| Balancer.RandomIsWeighted | internal/balancer/balancer.go:247-272 | of all draws there can be exactly weight_i pick server i, and without weights one each |
| Balancer.ScreenedAreTheEligible | internal/balancer/balancer.go:136-158 | the filter passes exactly the healthy, online members whose breaker, as it stood before the call, admits |
| Balancer.BreakersMoveByTheirOwnAllow | internal/balancer/balancer.go:144-150 | the filter moves the breakers of the healthy members by one Allow step each and no others |
| Balancer.ScreenedAreUsable | internal/balancer/balancer.go:136-158 | a server that passes is in the group, healthy, online, and its breaker is not open afterwards |
| Balancer.Balancer.SelectServer | internal/balancer/balancer.go:122-188 | who is selected and why, when there is no server, when the counter is missing, and that only the chosen server's two counters move |
| Balancer.Balancer.GroupIsOwnOrDefault | internal/balancer/balancer.go:126-130 | candidates all belong to the requested hostgroup, or all to hostgroup 0 if that one is empty |
| Balancer.Balancer.ReleaseServer | internal/balancer/balancer.go:302-335 | the named server's counters and moving average move; its breaker hears of a failure now, counted once, or of a success, which clears a closed breaker's count and never opens one; no other breaker moves; unknown names change nothing |
| Balancer.DistanceShrinks | internal/balancer/balancer.go:326-331 | one more latency leaves seven tenths of the average's distance to it |
| Balancer.AverageIsWithin | internal/balancer/balancer.go:326-331 | over any releases the average stays between the smallest and the largest latency |
| BreakerRuns.RefusedIff | internal/balancer/balancer.go:144-150 | after every history of requests a server is refused if and only if its breaker is open and its latest failed release is not timeout ago |
| BreakerRuns.SelectableWhileFewFail | internal/balancer/balancer.go:144-322 | a server that never failed threshold requests in a row is always let through |
| BreakerRuns.SuccessKeepsSelectable | internal/balancer/balancer.go:144-322 | a server released only with success is always let through |
| BreakerRuns.ThresholdShutsOut | internal/balancer/balancer.go:314-317 | the failed release that completes a run of threshold shuts the server out until timeout has passed |
| BreakerRuns.BreakersAreSeparate | internal/circuit/circuit.go:189-200 | each breaker holds what a breaker alone would after its own calls |
| BreakerRuns.FilteringAsks | internal/balancer/balancer.go:136-158 | filtering a group is one Allow after another, put to the breakers of its healthy servers in order |
| Balancer.Balancer.LoadServers | internal/balancer/balancer.go:78-112 | both indexes hold exactly the listed servers that are not offline, fresh with all their numbers zero, and old counters are kept |
| Balancer.CounterWhenListed | internal/balancer/balancer.go:91-109 | a hostgroup has a counter exactly when it had one or the list has a server for it that is not offline |
| Balancer.SelectAfterLoading | internal/balancer/balancer.go:78-221 | after any load, with any breakers and earlier counters, the counter is missing exactly when the algorithm uses one, the hostgroup had none, no server is listed for it and one of hostgroup 0 can take the request |
| Balancer.NilCounterHappens | internal/balancer/balancer.go:126-210 | it is missing with one server in hostgroup 0 and a request for hostgroup 5 |
| Retry.Do | internal/retry/retry.go:69-112 | fn is called for 0, 1, 2, ... until the attempt that stops the loop, and the result and the time slept are those of that attempt |
| Retry.StopsWhere | internal/retry/retry.go:73-109 | the loop stops at the first attempt that ends, answers, fails for good, is interrupted or is the last, after failures worth retrying |
| Retry.SucceedsIff | internal/retry/retry.go:83-95 | no error exactly when some attempt succeeds after failures that were all retried |
| Retry.ErrorReturned | internal/retry/retry.go:77-111 | the error is the context's, the first not worth retrying, or that of the last attempt |
| Retry.StopIsUnique | internal/retry/retry.go:73-109 | only one attempt can end the loop |
| Retry.BackoffGrows | internal/retry/retry.go:123-129 | without jitter delays never shrink, never exceed the cap and stay there |
| Retry.BackoffMultiplies | internal/retry/retry.go:123-129 | the first delay is the initial one and each next is multiplier times the one before, up to the cap |
| Retry.JitterStaysInBand | internal/retry/retry.go:131-135 | jitter moves a delay by at most its own share |
| Retry.JitterReachesTheBand | internal/retry/retry.go:131-135 | each delay of that band is drawn by exactly one random number |
| Retry.WholeNanoseconds | internal/retry/retry.go:137-137 | fractions of a nanosecond are dropped |
| Retry.SleepBound | internal/retry/retry.go:98-107 | a whole call sleeps at most MaxRetries times MaxDelay * (1 + Jitter) |
| Retry.Backoff.Next | internal/retry/retry.go:152-156 | the delay of the current attempt, which is never negative and never above the cap |
| Retry.Backoff.NextTimes | internal/retry/retry.go:152-161 | n calls after a Reset wait as long as the first n sleeps of Do, at most n times the cap |
| RateLimitSpec.CleanupIsUnobservable | internal/ratelimit/ratelimit.go:68-165 | histories that differ only in where Cleanup happens give every caller the same answers |
| RateLimitSpec.CleanupTakesTheOld | internal/ratelimit/ratelimit.go:231-241 | exactly the windows that opened five minutes ago or earlier go |
| RateLimitSpec.WindowIsTheAccount | internal/ratelimit/ratelimit.go:68-119 | in every history a window that still counts holds the requests admitted and tokens recorded since the request that opened it |
| RateLimitSpec.RequestRefusedIff | internal/ratelimit/ratelimit.go:68-105 | a request is refused if and only if as many were admitted since the window opened as the limit allows; remaining requests and times follow |
| RateLimitSpec.TokensRefusedIff | internal/ratelimit/ratelimit.go:122-165 | a token check is refused if and only if the tokens recorded since the window opened plus those asked exceed the limit |
| RateLimitSpec.SlidingBound | internal/ratelimit/ratelimit.go:68-105 | any k consecutive minutes hold at most (k + 1) * L - 1 admissions of a user, none if L is not positive |
| RateLimitSpec.SlidingBoundIsReached | internal/ratelimit/ratelimit.go:68-105 | for every L and k some history reaches that bound |
| RateLimitSpec.EveryRunIsAccounted | internal/ratelimit/ratelimit.go:71-97 | windows open at least a minute apart, so admissions so far fit the windows opened |
| RateLimit.Limiter.Allow | internal/ratelimit/ratelimit.go:57-105 | the new windows and the whole result are those of the specification |
| RateLimit.Limiter.RecordTokens | internal/ratelimit/ratelimit.go:108-119 | tokens are added to the user's window, stale or not, and to nothing if there is none |
| RateLimit.Limiter.CheckTokens | internal/ratelimit/ratelimit.go:122-165 | the whole result is that of the specification and nothing changes |
| RateLimit.Limiter.Cleanup | internal/ratelimit/ratelimit.go:231-241 | removes exactly the windows five minutes old or older |
| RateLimit.UsersAreHeldToTheirLimits | internal/ratelimit/ratelimit.go:57-184 | over any k minutes an active user is bound by their own limit, an inactive or unknown one by the defaults, and nobody is admitted while storage fails |
| Glob.Translate | internal/router/router.go:145-157 | the loop emits the anchored translation of the pattern |
| Glob.EmissionParses | internal/router/router.go:145-159 | whatever the pattern, every metacharacter in it comes back from the parser as a literal |
| Glob.MetaNeedsEscape | internal/router/router.go:152-155 | of all characters alone exactly the metacharacters do not stand for themselves, and those but `*` and `?` are escaped |
| Glob.BraceNeedsEscape | internal/router/router.go:152-155 | a brace alone is a literal but around a count it repeats what stands before it, so it is escaped too |
| Glob.TranslationPreservesMeaning | internal/router/router.go:145-163 | the emitted expression, parsed and searched for, matches exactly the texts the glob matches |
| Glob.StarIsAnyRun | internal/router/router.go:148-149 | a star stands for any newline-free run, the empty one included |
| Glob.SimpleMatch | internal/router/router.go:135-164 | accepts exactly the empty pattern, the lone star and the glob matches |
| Glob.SimpleMatchIsGlobExceptShortcuts | internal/router/router.go:136-141 | exactly when the two shortcuts differ from the glob meaning |
| Router.MatchRule | internal/router/router.go:100-132 | a compiled rule accepts a request exactly when its three fields do, each as expression or by its fallback |
| Router.FieldsJudgeApart | internal/router/router.go:100-132 | a rule accepts exactly what each of its three fields alone accepts |
| Router.OnlyNamedPartsCount | internal/router/router.go:100-132 | only the parts of a request that a field of the rule looks at can change the answer |
| Router.OneFieldTakes | internal/router/router.go:100-132 | what a rule with one field accepts: expression matches, else a glob for models, everything for prompts, the same name for users |
| Router.Router.LoadRules | internal/router/router.go:37-84 | the rules kept are the compiled active ones in an order that respects priority |
| Router.Router.RouteRequest | internal/router/router.go:87-98 | the answer of some active matching rule of least priority number, or the default exactly when none matches |
| Router.FirstMatchIsBest | internal/router/router.go:67-95 | the first match in any priority order is an argmin over the rules as stored |
| Router.RoutesIsUnique | internal/router/router.go:67-98 | with distinct priorities among the rules that apply there is one answer |
| Text.TrimSpaceIsTheCore | pkg/protocol/mysql.go:310-310 | trimming removes white space and nothing else from both ends and leaves none there |
| Text.SpacesAreWhite | pkg/protocol/mysql.go:310-310 | what is trimmed is exactly the UTF-8 encodings of the code points with property White_Space |
| Text.SplitIsUnique | pkg/protocol/mysql.go:310-310 | the lines of a text are the one way to write it as newline-free pieces joined by newlines |
| Mysql.RowRoundTripIff | pkg/protocol/mysql.go:374-389 | a string comes back exactly when it is shorter than 65536 octets |
| Mysql.StandardReads | pkg/protocol/mysql.go:374-389 | the client decodes all four forms of the protocol's length-encoded strings |
| Mysql.StandardIff | pkg/protocol/mysql.go:374-389 | the server writes a string as the protocol does if and only if it is shorter than 65536 octets |
| Mysql.RowIsNotEof | pkg/protocol/mysql.go:328-337 | no row packet, nor any beginning of one, can be taken for EOF |
| Mysql.FrameReads | pkg/protocol/mysql.go:446-479 | a packet is read back up to its length modulo 2^24, and the rest of an oversized payload is read as packets |
| Mysql.WireRoundTrip | pkg/protocol/mysql.go:446-479 | packets come back one by one with ids counting up modulo 256 |
| Mysql.IdsAreConsecutive | pkg/protocol/mysql.go:308-338 | an answer is its lines plus four packets with consecutive ids |
| Mysql.ColumnRoundTrip | pkg/protocol/mysql.go:340-372 | the column definition decodes to its catalog, table and column names |
| Mysql.ColumnTailMeans | pkg/protocol/mysql.go:340-372 | the fixed part of a column definition: length 12, character set 33, VAR_STRING, no flags |
| Mysql.ResultRoundTripIff | pkg/protocol/mysql.go:308-338 | a client decodes exactly the lines of the trimmed text if and only if each is shorter than 65536 octets |
| Mysql.Client.SendResult | pkg/protocol/mysql.go:308-338 | appends exactly the packets of the answer to the connection, with ids from the current one on |
| Mysql.Client.ReadPacket | pkg/protocol/mysql.go:446-461 | takes one packet off the stream and sets the next id, or fails having taken what there was |
| Mysql.Client.WritePacket | pkg/protocol/mysql.go:463-479 | appends one framed packet and advances the id |
| Mysql.ParsesIff | pkg/protocol/mysql.go:261-285 | a handshake response parses to a name and an answer exactly when it is laid out that way |
| Mysql.RefusesIff | pkg/protocol/mysql.go:261-285 | which responses are refused as too short, without a terminator, or cut off |
| Mysql.HandshakeRoundTripIff | pkg/protocol/mysql.go:261-285 | the fixed part of 4, 4, 1 and 23 octets, a name, NUL and a counted answer parse back to that name and answer if and only if the name holds no NUL |
| Admin.ParseCsvValues | internal/admin/admin.go:1172-1201 | the loop computes the tokens of the scanner |
| Admin.FeedItem | internal/admin/admin.go:1178-1194 | scanning an item that exposes no comma collects it whole, and ends outside quotes exactly when the item closes |
| Admin.TokenizerRoundTripIff | internal/admin/admin.go:1172-1211 | a nonempty list comes back if and only if no item exposes a comma and every item but the last ends outside quotes |
| Admin.OneItemRoundTripIff | internal/admin/admin.go:1172-1211 | a single quoted item comes back if and only if it exposes no comma |
| Admin.TokenizerRoundTrip | internal/admin/admin.go:1172-1211 | in particular every nonempty list of quoted items free of their own quote, and bare ones, comes back |
| Admin.OwnQuoteSplits | internal/admin/admin.go:1172-1211 | an item with its own quote around a separator comes back as two |

## Left out

- Bookkeeping fields that nothing else reads: hit counts, access and creation times, original size, model and endpoint of an entry, hit rates, the number of deduplicated requests, lastStateChange, LastUsed.
- Cache.Cache.SetWithTTL: the TTL that getTTL picks is a parameter, because it depends on map iteration order.
- Cache.Cache.Clear: clears all shards in one call; CacheSpec clears one shard an event, so overlapping calls are covered there.
- CacheSpec.GetRefinesLastWrite: a call is one step; `cfg.Enabled` and `MaxItemSize` are read before the shard lock is taken, so histories where SetEnabled or UpdateConfig falls between check and lock are not modelled.
- Admin.TokenizerRoundTripIff: bare items are taken to be trimmed and free of quotes and commas, like numbers.
- Conservation.ConnectionsAreHolders: assumes no LoadServers during the run, since that replaces the counters, and no missing round-robin counter, which panics.
- Proxy.ExecuteChatCompletion: requires a round-robin counter for every hostgroup asked for and MaxRetries >= 0; below zero the code calls nothing, releases the server as a success and dereferences a nil response.
- SingleFlight.FollowersShareTheLeadersResult: fn always returns; a panic in fn is not modelled.
- Fairness.FairOverAWindow: assumes the uint64 counter does not wrap inside the window, and weights that are not negative.
- Balancer.Balancer.ReleaseServer: the moving average is computed on rationals and truncated; rounding of float64 is not modelled.
- Balancer.Balancer.SelectServer: filtering, picking and counting are one step here; overlapping requests are the subject of Conservation.
- Retry.BackoffGrows: delays are rationals; float64 rounding and overflow are not modelled, and the multiplier is at least 1.
- RateLimitSpec.SlidingBound: time does not go back, the limit is constant, limiting is on and the user is not reset.
- Glob.TranslationPreservesMeaning: strings are sequences of runes, and the parser covers the emitted part of the syntax only; patterns so large that Go refuses the expression fall back to equality and are not modelled.
- Router.Router.LoadRules: which strings compile and what they match are parameters; sort.Slice is any sorting.
- Mysql.Client.SendResult: write errors and the command dispatch around it are not modelled.
- Streaming and embedding handlers, referee mode, provider adapters, health checks, configuration, metrics, dashboards, sessions: input and output without an algorithm of their own.
- Storage, encryption, password hashing, gzip, FNV and SHA: foreign libraries; only lossless decompression and a shard that depends on the key are assumed.
