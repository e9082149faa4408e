# git-status-cache core, modelled in Dafny

This project models the sequential logic of git-status-cache. It is a local service that answers
"what is the git status of this working copy?" from a cache. File changes invalidate the cache, and a
background primer fills it again. Three pieces are modelled:

- **The status cache** (`Cache`, cache.dfy). It holds a map from repository path to the
  `(bool, Status)` result the git collaborator returned, plus seven counters: hits, misses,
  effective/total primes, effective/total invalidations, and full clears. `GetStatus`,
  `PrimeCacheEntry`, `InvalidateCacheEntry`, `InvalidateAllCacheEntries` and `GetCacheStatistics` are
  pure transition functions. The git status computation is an opaque `Provider` function parameter.
  A failed result is cached like a successful one.
- **The debounced primer** (`CachePrimer`, cache_primer.dfy). It holds a pending set of paths and a
  deadline on an abstract integer clock in seconds. Construction sets the deadline to now + 60.
  Scheduling a path adds it to the set and adds 5 to the deadline. A tick fires only when the deadline
  is strictly before `now`. A firing tick drains the set, primes each drained path once, and resets the
  deadline to 60 after the clock reading taken once priming is done. The set's iteration order is
  unspecified, so `Prime` returns the order it used, and every lemma holds for any order.
  `Coordination` (coordination.dfy) composes the primer with the cache. One lemma covers invalidate,
  then schedule, then a firing tick: it refreshes the entry. Another covers a burst of scheduling
  calls: it is primed once, after the extended deadline.
- **The request dispatcher** (`StatusController`, status_controller.dfy, with get_status_timing.dfy,
  ascii.dfy and decimal.dfy). It covers request validation and its order, case-insensitive action
  dispatch, the GetStatus error chain, the error response fields, the status response's rename and
  stash entries, the GetStatus timing statistics (count, total, minimum, maximum, all 64-bit with
  wrap-around), and the integer average.

The primer's header comment says a scheduling call "reschedules for five seconds in the future". The
code instead adds five seconds to the current deadline, so n calls from deadline D give D + 5n. The
model follows the code. Likewise, a failed `InvalidateCacheEntry` still increments the total
invalidation counter. This matches the code, even though "leaves state unchanged" could be read
otherwise.

The status response does not report `IndexDeleted`, although the snapshot carries it. The model
reports exactly the fields the response lists. `StatusCache.h` is not part of this model. The
controller's cache is taken to have the interface of `Cache.h` and is modelled by `Cache`.

## Model

| member | source | states |
|---|---|---|
| `Cache.Empty` | src/GitStatusCache/src/Cache.h:20-26 | a new cache has no entries, all seven counters at zero, and satisfies the effective <= total invariant |
| `Cache.GetStatus` | src/GitStatusCache/src/Cache.cpp:4-29 | present key: returns the stored value, hits + 1, map and other counters unchanged; absent key: returns the provider's value (failures included), stores it under the path, misses + 1; existing entries never change and the invariant is kept |
| `Cache.PrimeCacheEntry` | src/GitStatusCache/src/Cache.cpp:31-51 | total primes + 1 always; a present key leaves the map and effective count alone; an absent key gets the provider's value and effective primes + 1; lookup and invalidation counters unchanged |
| `Cache.InvalidateCacheEntry` | src/GitStatusCache/src/Cache.cpp:53-74 | returns true iff the key was present; afterwards the key is absent and every other entry is unchanged; total invalidations + 1 always, effective + 1 iff it returned true |
| `Cache.InvalidateAllCacheEntries` | src/GitStatusCache/src/Cache.cpp:76-86 | the map is empty afterwards and only the invalidate-all counter moves |
| `Cache.GetCacheStatistics` | src/GitStatusCache/src/Cache.cpp:88-99 | the reported record holds exactly the seven counter values |
| `Cache.HitIgnoresProvider` | src/GitStatusCache/src/Cache.cpp:6-15 | a hit does not consult the provider: any two providers give the same lookup |
| `Cache.SecondLookupHits` | src/GitStatusCache/src/Cache.cpp:4-29 | after any lookup of a path, the next lookup is a hit returning the same value whatever the provider |
| `Cache.LookupAfterClearMisses` | src/GitStatusCache/src/Cache.cpp:76-86 | after a full clear, a lookup of any path is a miss that returns the provider's value |
| `Cache.LookupAfterInvalidationMisses` | src/GitStatusCache/src/Cache.cpp:53-74 | after invalidating a path, its next lookup is a miss that recomputes it |
| `Cache.PrimePresentIsNoOp` | src/GitStatusCache/src/Cache.cpp:31-38 | priming a cached path changes nothing except the total prime counter |
| `Cache.RunCounters` | src/GitStatusCache/src/Cache.h:20-26 | for any sequence of calls from a fresh cache, hits + misses equals the number of GetStatus calls, each total counter equals its number of requests, and effective <= total for primes and invalidations |
| `CachePrimer.Start` | src/GitStatusCache/src/CachePrimer.cpp:23 | construction leaves nothing pending and puts the deadline 60 after the clock reading |
| `CachePrimer.Schedule` | src/GitStatusCache/src/CachePrimer.cpp:79-84 | the path is pending afterwards, no other path's membership changes, and the deadline grows by exactly 5 whatever the time |
| `CachePrimer.ScheduleAllExtendsAdditively` | src/GitStatusCache/src/CachePrimer.cpp:83 | n scheduling calls from deadline D give deadline D + 5n, and the pending set gains exactly the scheduled paths |
| `CachePrimer.ScheduleTwiceSamePending` | src/GitStatusCache/src/CachePrimer.cpp:82-83 | scheduling a path again leaves the pending set as it was but still extends the deadline |
| `CachePrimer.PrimeAllEffect` | src/GitStatusCache/src/CachePrimer.cpp:46-47 | priming a repetition-free batch adds exactly its paths, keeps existing entries, fills each absent path from the provider, counts one total prime per path and one effective prime per path that was absent |
| `CachePrimer.PrimeOrderIrrelevant` | src/GitStatusCache/src/CachePrimer.cpp:46-47 | any two enumeration orders of the same batch leave the cache in the same state |
| `CachePrimer.Prime` | src/GitStatusCache/src/CachePrimer.cpp:36-49 | the pending set is empty afterwards, the deadline is untouched, and each captured path is primed exactly once (the returned order enumerates the set) with the batch effect above |
| `CachePrimer.TickStep` | src/GitStatusCache/src/CachePrimer.cpp:57-71 | a deadline at or after now changes nothing; a passed deadline empties the pending set, resets the deadline to the post-priming reading + 60, adds every pending path to the cache, keeps existing entries, fills each uncached pending path from the provider, counts one total prime per pending path and one effective prime per uncached one, and leaves the lookup and invalidation counters alone |
| `CachePrimer.Tick` | src/GitStatusCache/src/CachePrimer.cpp:55-74 | fires iff deadline < now (strict), primes each pending path once in the order it returns, and agrees with TickStep |
| `CachePrimer.NoFireUntilDeadlinePassed` | src/GitStatusCache/src/CachePrimer.cpp:63 | a tick at or before the deadline, equality included, changes neither primer nor cache |
| `CachePrimer.QuietAfterFiring` | src/GitStatusCache/src/CachePrimer.cpp:67-70 | after a firing tick, with nothing scheduled since, no tick up to 60 after the post-priming reading fires |
| `Coordination.ScheduledPathEndsUpCached` | src/GitStatusCache/src/CachePrimer.cpp:79-84 | a scheduled path is in the cache after the next tick that fires |
| `Coordination.InvalidateThenScheduleRefreshes` | src/GitStatusCache/src/CachePrimer.cpp:36-49 | invalidate a path and then schedule it: the next firing tick stores the provider's fresh value, counts an effective prime and drains the pending set |
| `Coordination.BurstDefersPriming` | src/GitStatusCache/src/CachePrimer.cpp:83 | after n scheduling calls, no tick up to the old deadline + 5n fires |
| `Coordination.BurstPrimesOnce` | src/GitStatusCache/src/CachePrimer.cpp:79-84 | three calls for one path after construction at t0 move the deadline to t0 + 75; no tick fires before then, and the first tick after it primes the path exactly once and caches it |
| `GetStatusTiming.Initial` | src/GitStatusCache/src/StatusController.h:21-24 | the statistics start at zero calls, zero total, minimum UINT64_MAX and maximum 0 |
| `GetStatusTiming.Record` | src/GitStatusCache/src/StatusController.cpp:51-58 | calls + 1 and total + sample modulo 2^64; the new minimum is the smaller of the old minimum and the sample, the new maximum the larger |
| `GetStatusTiming.RecordAllDescribesSamples` | src/GitStatusCache/src/StatusController.cpp:54-57 | from the initial values: count and total are the number and sum of samples modulo 2^64, every sample lies between minimum and maximum, and once a sample is recorded both bounds are samples, so minimum <= maximum |
| `GetStatusTiming.AverageNanoseconds` | src/GitStatusCache/src/StatusController.cpp:153 | zero when no call is recorded, otherwise the integer quotient: average * calls <= total < (average + 1) * calls |
| `GetStatusTiming.AverageWithinBounds` | src/GitStatusCache/src/StatusController.cpp:153 | while neither count nor total has wrapped, the reported average lies between the reported minimum and maximum |
| `GetStatusTiming.AsWrittenSample` | src/GitStatusCache/src/StatusController.cpp:213-215 | the sample the handler records: the start reading minus the finish reading, reduced modulo 2^64 into a uint64 |
| `GetStatusTiming.AsWrittenSampleIsNotElapsed` | src/GitStatusCache/src/StatusController.cpp:215 | the sample as written, (start - finish) converted to uint64, is 2^64 minus the elapsed time and never the elapsed time for any positive duration below 2^63 |
| `GetStatusTiming.AsWrittenSampleOneTick` | src/GitStatusCache/src/StatusController.cpp:215 | a call taking one clock tick is recorded as UINT64_MAX |
| `GetStatusTiming.ElapsedSample` | src/GitStatusCache/src/StatusController.cpp:213-215 | the corrected sample equals finish - start whenever that is a valid uint64 |
| `GetStatusTiming.ElapsedSampleFirstCall` | src/GitStatusCache/src/StatusController.cpp:51-58 | with the corrected sample, the first recorded call reports its elapsed time as total, minimum and maximum, with one call |
| `Ascii.StrCaseEqualMeansLowerEqual` | src/GitStatusCache/src/StatusController.cpp:211 | strcasecmp(a, b) == 0, walked character by character, holds iff the parts of a and b before the first NUL are equal after ASCII lower-casing |
| `Decimal.ToDecimal` | src/GitStatusCache/src/StatusController.cpp:127 | the decimal spelling is non-empty, all digits, and has no leading zero except for 0 |
| `Decimal.ToDecimalRoundTrip` | src/GitStatusCache/src/StatusController.cpp:127 | reading the decimal spelling back gives the number |
| `Decimal.ToDecimalInjective` | src/GitStatusCache/src/StatusController.cpp:127 | distinct indices have distinct spellings |
| `StatusController.InitialState` | src/GitStatusCache/src/StatusController.h:21-29 | a new controller has the initial timing, an empty cache, and no shutdown requested |
| `StatusController.CreateErrorResponse` | src/GitStatusCache/src/StatusController.cpp:34-49 | an error document carries version 1 and the given error, and an exception message exactly when one was passed |
| `StatusController.Member` | src/GitStatusCache/src/StatusController.cpp:201 | looking up a key in an object gives its value, or null when absent; a null document behaves as an empty object |
| `StatusController.RenamedEntries` | src/GitStatusCache/src/StatusController.cpp:108-122 | each rename pair becomes an {Old, New} entry, same number, same order |
| `StatusController.RenamedEntriesRoundTrip` | src/GitStatusCache/src/StatusController.cpp:108-122 | the rename pairs can be read back out of the entries unchanged |
| `StatusController.StashName` | src/GitStatusCache/src/StatusController.cpp:127 | a stash name is "stash@{", then the index in decimal, then "}" |
| `StatusController.StashNameRoundTrip` | src/GitStatusCache/src/StatusController.cpp:127 | parsing a stash name gives its index back |
| `StatusController.StashEntries` | src/GitStatusCache/src/StatusController.cpp:124-131 | each stash becomes a {Name, Sha1Id, Message} entry, same number, same order |
| `StatusController.StashEntriesNameIndices` | src/GitStatusCache/src/StatusController.cpp:124-131 | every reported stash name reads back as the index of the stash at that position |
| `StatusController.Report` | src/GitStatusCache/src/StatusController.cpp:82-131 | the response copies every reported field of the snapshot unchanged; both rename lists read back as the snapshot's pairs; each stash entry carries its stash's Sha1Id and Message and a name that parses back to its index |
| `StatusController.ReportOmitsIndexDeleted` | src/GitStatusCache/src/StatusController.cpp:82-106 | the index deletions are not reported: snapshots differing only there give the same report |
| `StatusController.GetStatus` | src/GitStatusCache/src/StatusController.cpp:60-134 | checked in order: Path not a string, path not in a repository, cache result not ok; each check has its own error and leaves the cache alone, except that the lookup's own cache change is kept; a status response (requested path plus report) is built iff all three pass |
| `StatusController.Statistics` | src/GitStatusCache/src/StatusController.cpp:136-174 | the statistics response carries the call count, minimum, maximum, total / calls (or 0 with no calls), and the cache counters |
| `StatusController.HandleRequest` | src/GitStatusCache/src/StatusController.cpp:189-226 | an exception escapes iff the parsed document is neither object nor null; every error response has version 1 and carries an exception message iff the request was not valid JSON; a rejected request changes nothing; timing moves iff the action names GetStatus, recording the sample as written, (start - finish) modulo 2^64; only GetStatus changes the cache; only Shutdown sets the shutdown flag |
| `StatusController.RejectedAtFirstFailingCheck` | src/GitStatusCache/src/StatusController.cpp:191-208 | a request that passes the earlier checks and fails check k (valid JSON, Version a number, Version equal to 1, Action a string) gets check k's error and changes nothing |
| `StatusController.AllChecksPassedIsValidated` | src/GitStatusCache/src/StatusController.cpp:201-209 | passing all four checks is exactly being validated for dispatch |
| `StatusController.ComparisonsSelectActionNamed` | src/GitStatusCache/src/StatusController.cpp:211-222 | the source's chain of strcasecmp tests agrees with choosing the action by the lower-cased name: "getstatus", "getcachestatistics", "shutdown" |
| `StatusController.DispatchFollowsActionNamed` | src/GitStatusCache/src/StatusController.cpp:211-225 | a validated request gets a status lookup with the as-written timing sample recorded, the statistics, a shutdown, or "'Action' unrecognized.", according to its lower-cased action name |
| `StatusController.ActionMatchIgnoresCase` | src/GitStatusCache/src/StatusController.cpp:211-222 | two requests whose actions differ only in ASCII letter case get identical answers and state |
| `StatusController.GetStatusRequestSelected` | src/GitStatusCache/src/StatusController.cpp:201-211 | a request with Version 1 and Action "GetStatus" passes every check and matches the GetStatus comparison |
| `StatusController.OneTickGetStatusRecordedAsMax` | src/GitStatusCache/src/StatusController.cpp:211-217 | from a new controller, a GetStatus request timed by the readings 0 and 1 leaves the total, minimum and maximum at UINT64_MAX with one call |
| `StatusController.GetStatusMissReportsProvider` | src/GitStatusCache/src/StatusController.cpp:211-217 | a GetStatus request for an uncached repository asks the provider once (one miss), caches the value and reports it for the requested path |

## Findings

| source | as written | input that shows it | evidently intended | confidence | as-written member | corrected member |
|---|---|---|---|---|---|---|
| src/GitStatusCache/src/StatusController.cpp:215 | the recorded sample is `(start - now).count()`, a non-positive duration converted to `uint64_t` | start reading 0, finish reading 1: the first GetStatus request records total, minimum and maximum 2^64 - 1 instead of 1; in general each sample is (2^64 - elapsed) modulo 2^64, so a zero-length call records 0, and the total wraps to (-(sum of elapsed times)) modulo 2^64 | the elapsed time `now - start` | not executed | `StatusController.OneTickGetStatusRecordedAsMax` | `GetStatusTiming.ElapsedSampleFirstCall` |

`StatusController.HandleRequest` records `GetStatusTiming.AsWrittenSample`, as the source does.
`GetStatusTiming.AsWrittenSampleIsNotElapsed` shows that this sample is never the elapsed time of a call
that takes time. The corrected sample is `GetStatusTiming.ElapsedSample`, and `ElapsedSampleFirstCall`
proves it reports the elapsed time.

## Left out

- Threads, mutexes, atomics and lock scopes. Each cache and primer operation is one atomic step. The
  source releases the cache lock while the provider runs, so two concurrent misses on one key can both
  compute, and the last write wins. That race is not modelled.
- The primer thread's lifetime: the 5-second sleep and 5-millisecond stop-event wait between ticks,
  the stop event, and the destructor's join. A tick is one loop iteration with its two clock readings
  passed in.
- Clock resolution: time is an integer count of seconds, and the 60 and 5 constants are seconds on it.
- The git status computation and repository discovery (`Git::GetStatus`, `DiscoverRepository`). These
  are the opaque parameters `git` and `discover`.
- Cache.GetStatus: the seven cache counters are unbounded naturals. The source's `uint64_t` atomics
  would wrap after 2^64 operations, which is not modelled.
- JSON parsing and serialisation. A request arrives as a `Json` value or a parse error. A response is
  a record, not text. JSON numbers are reals, so the integer/float distinction and NaN are not modelled.
- StatusController.GetStatus: `document["Path"]` is applied to a const document. For a missing key the
  JSON library's behaviour is undefined. The model treats the missing member as null, which gives
  "'Path' must be specified.".
- StatusController.HandleRequest: when the parsed document is neither an object nor null,
  `document["Version"]` throws. The model returns `Thrown`. What the caller does with that exception is
  not modelled.
- The conversion of the statistics to floating-point milliseconds. Statistics are reported as integer
  nanoseconds, with the same integer average.
- The request text passed to CreateErrorResponse is used only for logging, which is not modelled.
- Stash indices are natural numbers. `std::to_string` of a negative index is not modelled.
- The shutdown event is a boolean flag. `WaitForShutdownRequest` is not modelled.
- CacheInvalidator: only declarations are shown. The file-change filter, the token-to-repository
  table, and `MonitorRepositoryDirectories` are not part of this model. Only the invalidate-then-
  schedule sequence it performs is composed, in `Coordination`.
- Service, pipe server, directory monitoring, string conversion and logging settings. These are OS
  plumbing outside the modelled logic.
