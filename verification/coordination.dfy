/**
 * The cache and the primer working together: what happens to a repository
 * that is invalidated and scheduled for priming, and how a burst of
 * scheduling calls is coalesced into one priming pass.
 *
 * The file-change filter and token table of the invalidator are not part of
 * this model; only the "invalidate, then schedule" sequence it performs is.
 */
module Coordination {
  import opened GitStatus
  import opened Cache
  import opened CachePrimer

  /** A scheduled path is in the cache after the next tick that fires. */
  lemma ScheduledPathEndsUpCached(p: PrimerState, c: CacheState, git: Provider, path: string,
                                  now: int, resetNow: int, order: seq<string>)
    requires Schedule(p, path).deadline < now
    requires Enumerates(order, Schedule(p, path).pending)
    ensures path in TickStep(Schedule(p, path), c, git, now, resetNow, order).cache.entries
  {
  }

  /**
   * Invalidating a repository and then scheduling it, as a file change does,
   * refreshes its entry from the provider at the next firing tick, and that
   * pass counts as an effective prime.
   */
  lemma InvalidateThenScheduleRefreshes(p: PrimerState, c: CacheState, git: Provider, path: string,
                                        now: int, resetNow: int, order: seq<string>)
    requires Schedule(p, path).deadline < now
    requires Enumerates(order, Schedule(p, path).pending)
    ensures var invalidated := InvalidateCacheEntry(c, path).cache;
            var s := TickStep(Schedule(p, path), invalidated, git, now, resetNow, order);
            && path in s.cache.entries
            && s.cache.entries[path] == git(path)
            && s.cache.effectivePrimes > invalidated.effectivePrimes
            && s.primer.pending == {}
  {
    var invalidated := InvalidateCacheEntry(c, path).cache;
    var q := Schedule(p, path);
    assert path in Uncached(invalidated, q.pending);
  }

  /** Scheduling calls push the deadline out: no tick up to the extended deadline fires. */
  lemma BurstDefersPriming(p: PrimerState, c: CacheState, git: Provider, paths: seq<string>,
                           now: int, resetNow: int, order: seq<string>)
    requires now <= p.deadline + SCHEDULE_EXTENSION * |paths|
    ensures ScheduleAll(p, paths).deadline == p.deadline + SCHEDULE_EXTENSION * |paths|
    ensures var q := ScheduleAll(p, paths);
            TickStep(q, c, git, now, resetNow, order) == Step(q, c)
  {
    ScheduleAllExtendsAdditively(p, paths);
  }

  /**
   * Three scheduling calls for one repository right after construction at
   * `t0`: no tick fires until the deadline t0 + 60 + 3 * 5 has passed, and
   * the tick that fires then primes the repository exactly once.
   */
  lemma BurstPrimesOnce(t0: int, path: string, c: CacheState, git: Provider,
                        now: int, resetNow: int, order: seq<string>)
    ensures ScheduleAll(Start(t0), [path, path, path]).deadline == t0 + 75
    ensures ScheduleAll(Start(t0), [path, path, path]).pending == {path}
    ensures var q := ScheduleAll(Start(t0), [path, path, path]);
            now <= t0 + 75 ==> TickStep(q, c, git, now, resetNow, order) == Step(q, c)
    ensures t0 + 75 < now && Enumerates(order, {path}) ==>
              && order == [path]
              && path in TickStep(ScheduleAll(Start(t0), [path, path, path]), c, git, now, resetNow, order).cache.entries
  {
    var paths := [path, path, path];
    ScheduleAllExtendsAdditively(Start(t0), paths);
    assert Elements(paths) == {path};
    if t0 + 75 < now && Enumerates(order, {path}) {
      DistinctCardinality(order);
      assert |order| == 1;
      assert order[0] in Elements(order);
    }
  }
}
