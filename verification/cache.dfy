/**
 * The status cache (class Cache): a map from repository path to the last
 * computed `(bool, Status)` result, plus seven monotone counters.
 *
 * Each operation is one atomic step. The source releases its lock while the
 * provider runs, so two concurrent misses on the same key may both compute
 * and the last write wins; that race is not part of this sequential model.
 */
module Cache {
  import opened GitStatus

  /** The counters reported by GetCacheStatistics. */
  datatype CacheStatistics = CacheStatistics(
    cacheHits: nat,
    cacheMisses: nat,
    cacheEffectivePrimeRequests: nat,
    cacheTotalPrimeRequests: nat,
    cacheEffectiveInvalidationRequests: nat,
    cacheTotalInvalidationRequests: nat,
    cacheInvalidateAllRequests: nat)

  /** The cache map together with the counters kept beside it. */
  datatype CacheState = CacheState(
    entries: map<string, StatusResult>,
    hits: nat,
    misses: nat,
    effectivePrimes: nat,
    totalPrimes: nat,
    effectiveInvalidations: nat,
    totalInvalidations: nat,
    invalidateAlls: nat)

  /** An operation that changed the cache only counts as "effective" once per request. */
  predicate Consistent(c: CacheState) {
    && c.effectivePrimes <= c.totalPrimes
    && c.effectiveInvalidations <= c.totalInvalidations
  }

  /** The prime and invalidation counters agree. */
  predicate SamePrimeAndInvalidationCounters(c: CacheState, d: CacheState) {
    && c.effectivePrimes == d.effectivePrimes
    && c.totalPrimes == d.totalPrimes
    && c.effectiveInvalidations == d.effectiveInvalidations
    && c.totalInvalidations == d.totalInvalidations
    && c.invalidateAlls == d.invalidateAlls
  }

  /** The lookup and invalidation counters agree. */
  predicate SameLookupAndInvalidationCounters(c: CacheState, d: CacheState) {
    && c.hits == d.hits
    && c.misses == d.misses
    && c.effectiveInvalidations == d.effectiveInvalidations
    && c.totalInvalidations == d.totalInvalidations
    && c.invalidateAlls == d.invalidateAlls
  }

  /** Every entry of `c` is still in `d` with the same value. */
  predicate KeepsEntries(c: CacheState, d: CacheState) {
    forall k :: k in c.entries ==> k in d.entries && d.entries[k] == c.entries[k]
  }

  /** A freshly constructed cache: no entries and every counter zero. */
  function Empty(): (c: CacheState)
    ensures c.entries == map[]
    ensures GetCacheStatistics(c) == CacheStatistics(0, 0, 0, 0, 0, 0, 0)
    ensures Consistent(c)
  {
    CacheState(map[], 0, 0, 0, 0, 0, 0, 0)
  }

  /** The result of GetStatus: the new cache and the returned value. */
  datatype Lookup = Lookup(cache: CacheState, result: StatusResult)

  /**
   * Returns the cached result when present (a hit); otherwise asks the
   * provider, stores whatever it returned, failures included, and returns it
   * (a miss).
   */
  function GetStatus(c: CacheState, path: string, git: Provider): (r: Lookup)
    ensures r.cache.entries.Keys == c.entries.Keys + {path}
    ensures r.cache.entries[path] == r.result
    ensures KeepsEntries(c, r.cache)
    ensures path in c.entries ==>
              && r.result == c.entries[path]
              && r.cache.hits == c.hits + 1
              && r.cache.misses == c.misses
    ensures path !in c.entries ==>
              && r.result == git(path)
              && r.cache.hits == c.hits
              && r.cache.misses == c.misses + 1
    ensures SamePrimeAndInvalidationCounters(c, r.cache)
    ensures Consistent(c) ==> Consistent(r.cache)
  {
    if path in c.entries then
      Lookup(c.(hits := c.hits + 1), c.entries[path])
    else
      var status := git(path);
      Lookup(c.(entries := c.entries[path := status], misses := c.misses + 1), status)
  }

  /**
   * Computes and stores the entry only if it is absent. The total counter
   * always moves; the effective counter moves only when an entry is added.
   */
  function PrimeCacheEntry(c: CacheState, path: string, git: Provider): (r: CacheState)
    ensures r.entries.Keys == c.entries.Keys + {path}
    ensures KeepsEntries(c, r)
    ensures path !in c.entries ==> r.entries[path] == git(path)
    ensures r.totalPrimes == c.totalPrimes + 1
    ensures r.effectivePrimes == c.effectivePrimes + (if path in c.entries then 0 else 1)
    ensures SameLookupAndInvalidationCounters(c, r)
    ensures Consistent(c) ==> Consistent(r)
  {
    var requested := c.(totalPrimes := c.totalPrimes + 1);
    if path in c.entries then
      requested
    else
      requested.(effectivePrimes := requested.effectivePrimes + 1,
                 entries := c.entries[path := git(path)])
  }

  /** The result of InvalidateCacheEntry: the new cache and whether an entry was removed. */
  datatype Invalidation = Invalidation(cache: CacheState, removed: bool)

  /**
   * Removes the entry for `path`, reporting whether there was one. The total
   * counter always moves; the effective counter only on removal.
   */
  function InvalidateCacheEntry(c: CacheState, path: string): (r: Invalidation)
    ensures r.removed <==> path in c.entries
    ensures r.cache.entries.Keys == c.entries.Keys - {path}
    ensures forall k :: k in r.cache.entries ==> r.cache.entries[k] == c.entries[k]
    ensures r.cache.totalInvalidations == c.totalInvalidations + 1
    ensures r.cache.effectiveInvalidations == c.effectiveInvalidations + (if r.removed then 1 else 0)
    ensures r.cache.hits == c.hits && r.cache.misses == c.misses
    ensures r.cache.effectivePrimes == c.effectivePrimes && r.cache.totalPrimes == c.totalPrimes
    ensures r.cache.invalidateAlls == c.invalidateAlls
    ensures Consistent(c) ==> Consistent(r.cache)
  {
    var requested := c.(totalInvalidations := c.totalInvalidations + 1);
    if path in c.entries then
      Invalidation(requested.(entries := c.entries - {path},
                              effectiveInvalidations := c.effectiveInvalidations + 1), true)
    else
      Invalidation(requested, false)
  }

  /** Drops every entry; only the invalidate-all counter moves. */
  function InvalidateAllCacheEntries(c: CacheState): (r: CacheState)
    ensures |r.entries| == 0
    ensures r.invalidateAlls == c.invalidateAlls + 1
    ensures r.hits == c.hits && r.misses == c.misses
    ensures r.effectivePrimes == c.effectivePrimes && r.totalPrimes == c.totalPrimes
    ensures r.effectiveInvalidations == c.effectiveInvalidations
    ensures r.totalInvalidations == c.totalInvalidations
    ensures Consistent(c) ==> Consistent(r)
  {
    c.(entries := map[], invalidateAlls := c.invalidateAlls + 1)
  }

  /** Copies the seven counters; the cache itself is not touched. */
  function GetCacheStatistics(c: CacheState): (s: CacheStatistics)
    ensures s.cacheHits == c.hits && s.cacheMisses == c.misses
    ensures s.cacheEffectivePrimeRequests == c.effectivePrimes
    ensures s.cacheTotalPrimeRequests == c.totalPrimes
    ensures s.cacheEffectiveInvalidationRequests == c.effectiveInvalidations
    ensures s.cacheTotalInvalidationRequests == c.totalInvalidations
    ensures s.cacheInvalidateAllRequests == c.invalidateAlls
  {
    CacheStatistics(c.hits, c.misses, c.effectivePrimes, c.totalPrimes,
                    c.effectiveInvalidations, c.totalInvalidations, c.invalidateAlls)
  }

  // ---------------------------------------------------------------------------
  // Properties relating several calls
  // ---------------------------------------------------------------------------

  /** A hit never consults the provider: any two providers give the same lookup. */
  lemma HitIgnoresProvider(c: CacheState, path: string, git1: Provider, git2: Provider)
    requires path in c.entries
    ensures GetStatus(c, path, git1) == GetStatus(c, path, git2)
  {
  }

  /** Once looked up, a path is a hit returning the same value until invalidated. */
  lemma SecondLookupHits(c: CacheState, path: string, git: Provider, later: Provider)
    ensures var first := GetStatus(c, path, git);
            var second := GetStatus(first.cache, path, later);
            && second.result == first.result
            && second.cache.entries == first.cache.entries
            && second.cache.hits == first.cache.hits + 1
            && second.cache.misses == first.cache.misses
  {
  }

  /** After a full clear, a lookup of any path is a miss and asks the provider. */
  lemma LookupAfterClearMisses(c: CacheState, path: string, git: Provider)
    ensures var r := GetStatus(InvalidateAllCacheEntries(c), path, git);
            && r.result == git(path)
            && r.cache.misses == c.misses + 1
            && r.cache.hits == c.hits
  {
  }

  /** After invalidating a path, its next lookup recomputes it. */
  lemma LookupAfterInvalidationMisses(c: CacheState, path: string, git: Provider)
    ensures var inv := InvalidateCacheEntry(c, path);
            var r := GetStatus(inv.cache, path, git);
            && r.result == git(path)
            && r.cache.misses == c.misses + 1
  {
  }

  /** Priming a path that is already cached changes nothing but the total prime counter. */
  lemma PrimePresentIsNoOp(c: CacheState, path: string, git: Provider)
    requires path in c.entries
    ensures PrimeCacheEntry(c, path, git) == c.(totalPrimes := c.totalPrimes + 1)
  {
  }

  // ---------------------------------------------------------------------------
  // Traces of operations
  // ---------------------------------------------------------------------------

  /** A call made on the cache. */
  datatype Call =
    | GetStatusCall(path: string)
    | PrimeCall(path: string)
    | InvalidateCall(path: string)
    | InvalidateAllCall
    | StatisticsCall

  /** Applies one call, dropping its return value. */
  function Apply(c: CacheState, call: Call, git: Provider): CacheState {
    match call
    case GetStatusCall(p) => GetStatus(c, p, git).cache
    case PrimeCall(p) => PrimeCacheEntry(c, p, git)
    case InvalidateCall(p) => InvalidateCacheEntry(c, p).cache
    case InvalidateAllCall => InvalidateAllCacheEntries(c)
    case StatisticsCall => c
  }

  /** Applies the calls in order. */
  function Run(c: CacheState, calls: seq<Call>, git: Provider): CacheState
    decreases |calls|
  {
    if |calls| == 0 then c
    else Apply(Run(c, calls[..|calls| - 1], git), calls[|calls| - 1], git)
  }

  /** The number of calls satisfying the discriminator `kind`. */
  function Occurrences(calls: seq<Call>, kind: CallKind): nat
    decreases |calls|
  {
    if |calls| == 0 then 0
    else Occurrences(calls[..|calls| - 1], kind) + (if KindOf(calls[|calls| - 1]) == kind then 1 else 0)
  }

  datatype CallKind = GetStatusKind | PrimeKind | InvalidateKind | InvalidateAllKind | StatisticsKind

  function KindOf(call: Call): CallKind {
    match call
    case GetStatusCall(_) => GetStatusKind
    case PrimeCall(_) => PrimeKind
    case InvalidateCall(_) => InvalidateKind
    case InvalidateAllCall => InvalidateAllKind
    case StatisticsCall => StatisticsKind
  }

  /**
   * From a fresh cache, the reported counters account for every call:
   * hits + misses is the number of GetStatus calls, the total counters count
   * their requests, and no effective counter exceeds its total.
   */
  lemma {:induction false} RunCounters(calls: seq<Call>, git: Provider)
    ensures var s := GetCacheStatistics(Run(Empty(), calls, git));
            && s.cacheHits + s.cacheMisses == Occurrences(calls, GetStatusKind)
            && s.cacheTotalPrimeRequests == Occurrences(calls, PrimeKind)
            && s.cacheTotalInvalidationRequests == Occurrences(calls, InvalidateKind)
            && s.cacheInvalidateAllRequests == Occurrences(calls, InvalidateAllKind)
            && s.cacheEffectivePrimeRequests <= s.cacheTotalPrimeRequests
            && s.cacheEffectiveInvalidationRequests <= s.cacheTotalInvalidationRequests
    decreases |calls|
  {
    if |calls| > 0 {
      RunCounters(calls[..|calls| - 1], git);
    }
  }
}
