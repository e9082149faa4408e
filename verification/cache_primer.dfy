/**
 * The debounced cache primer (class CachePrimer): a pending set of
 * repository paths and a deadline. Scheduling a path extends the deadline
 * additively; a timer tick that finds the deadline passed drains the set,
 * primes each drained path in the cache and resets the deadline.
 *
 * Time is an abstract integer clock in seconds. The background thread, its
 * sleeps and the stop event are not modelled: a tick is one iteration of
 * the wait loop, with its clock readings passed in.
 */
module CachePrimer {
  import opened GitStatus
  import opened Cache

  /** The quiescence window set at construction and after each priming pass. */
  const PRIMING_WINDOW: int := 60

  /** The amount each scheduling call adds to the deadline. */
  const SCHEDULE_EXTENSION: int := 5

  /** The deadline and the set of repositories waiting to be primed. */
  datatype PrimerState = PrimerState(deadline: int, pending: set<string>)

  /** The elements of a sequence, as a set. */
  function Elements(s: seq<string>): set<string> {
    set x | x in s
  }

  /** No element occurs twice. */
  predicate Distinct(s: seq<string>) {
    forall i, j :: 0 <= i < j < |s| ==> s[i] != s[j]
  }

  /** `order` visits every element of `s` exactly once. */
  predicate Enumerates(order: seq<string>, s: set<string>) {
    Distinct(order) && Elements(order) == s
  }

  /** A primer constructed at time `now`: nothing pending, deadline one window away. */
  function Start(now: int): (p: PrimerState)
    ensures p.pending == {}
    ensures p.deadline == now + PRIMING_WINDOW
  {
    PrimerState(now + PRIMING_WINDOW, {})
  }

  /**
   * SchedulePrimingForRepositoryPath: adds the path to the pending set and
   * pushes the deadline further out by the extension, whatever the time.
   */
  function Schedule(p: PrimerState, path: string): (r: PrimerState)
    ensures path in r.pending
    ensures r.pending - {path} == p.pending - {path}
    ensures r.deadline == p.deadline + SCHEDULE_EXTENSION
  {
    PrimerState(p.deadline + SCHEDULE_EXTENSION, p.pending + {path})
  }

  /** Schedules the paths one after another. */
  function ScheduleAll(p: PrimerState, paths: seq<string>): PrimerState
    decreases |paths|
  {
    if |paths| == 0 then p
    else Schedule(ScheduleAll(p, paths[..|paths| - 1]), paths[|paths| - 1])
  }

  /**
   * n scheduling calls move the deadline by exactly n extensions, and the
   * pending set gains exactly the scheduled paths.
   */
  lemma {:induction false} ScheduleAllExtendsAdditively(p: PrimerState, paths: seq<string>)
    ensures ScheduleAll(p, paths).deadline == p.deadline + SCHEDULE_EXTENSION * |paths|
    ensures ScheduleAll(p, paths).pending == p.pending + Elements(paths)
    decreases |paths|
  {
    if |paths| > 0 {
      var prefix := paths[..|paths| - 1];
      ScheduleAllExtendsAdditively(p, prefix);
      assert Elements(paths) == Elements(prefix) + {paths[|paths| - 1]} by {
        assert paths == prefix + [paths[|paths| - 1]];
      }
    }
  }

  /** Scheduling the same path again leaves the pending set as it was. */
  lemma ScheduleTwiceSamePending(p: PrimerState, path: string)
    ensures Schedule(Schedule(p, path), path).pending == Schedule(p, path).pending
    ensures Schedule(Schedule(p, path), path).deadline == Schedule(p, path).deadline + SCHEDULE_EXTENSION
  {
  }

  // ---------------------------------------------------------------------------
  // Priming
  // ---------------------------------------------------------------------------

  /** PrimeCacheEntry for each path of `order`, in that order. */
  function PrimeAll(c: CacheState, order: seq<string>, git: Provider): CacheState
    decreases |order|
  {
    if |order| == 0 then c
    else PrimeCacheEntry(PrimeAll(c, order[..|order| - 1], git), order[|order| - 1], git)
  }

  /** Appending an element not yet present keeps a sequence repetition-free. */
  lemma AppendFresh(s: seq<string>, x: string)
    requires Distinct(s) && x !in Elements(s)
    ensures Distinct(s + [x])
    ensures Elements(s + [x]) == Elements(s) + {x}
    ensures (s + [x])[..|s|] == s
  {
  }

  /** A repetition-free sequence has as many elements as its set. */
  lemma {:induction false} DistinctCardinality(s: seq<string>)
    requires Distinct(s)
    ensures |Elements(s)| == |s|
    decreases |s|
  {
    if |s| > 0 {
      var prefix := s[..|s| - 1];
      DistinctCardinality(prefix);
      assert s == prefix + [s[|s| - 1]];
      assert Elements(s) == Elements(prefix) + {s[|s| - 1]};
      assert s[|s| - 1] !in Elements(prefix);
    }
  }

  /** Priming adds exactly the batch's paths to the key set. */
  lemma {:induction false} PrimeAllKeys(c: CacheState, order: seq<string>, git: Provider)
    ensures PrimeAll(c, order, git).entries.Keys == c.entries.Keys + Elements(order)
    decreases |order|
  {
    if |order| > 0 {
      var prefix := order[..|order| - 1];
      PrimeAllKeys(c, prefix, git);
      assert order == prefix + [order[|order| - 1]];
      assert Elements(order) == Elements(prefix) + {order[|order| - 1]};
    }
  }

  /** Priming never changes an entry that was already cached. */
  lemma {:induction false} PrimeAllKeeps(c: CacheState, order: seq<string>, git: Provider)
    ensures KeepsEntries(c, PrimeAll(c, order, git))
    decreases |order|
  {
    if |order| > 0 {
      PrimeAllKeeps(c, order[..|order| - 1], git);
    }
  }

  /** Each path of a repetition-free batch that was absent is filled from the provider. */
  lemma {:induction false} PrimeAllFills(c: CacheState, order: seq<string>, git: Provider)
    requires Distinct(order)
    ensures var d := PrimeAll(c, order, git);
            forall k :: k in Elements(order) && k !in c.entries ==> k in d.entries && d.entries[k] == git(k)
    decreases |order|
  {
    if |order| > 0 {
      var prefix := order[..|order| - 1];
      var last := order[|order| - 1];
      assert order == prefix + [last];
      assert Distinct(prefix);
      PrimeAllFills(c, prefix, git);
      PrimeAllKeys(c, prefix, git);
      assert last !in Elements(prefix);
      assert Elements(order) == Elements(prefix) + {last};
    }
  }

  /** The paths of `batch` that have no entry in `c`. */
  function Uncached(c: CacheState, batch: set<string>): set<string> {
    set k | k in batch && k !in c.entries
  }

  /** Adding a new path to a batch adds one uncached path exactly when it has no entry. */
  lemma AddOneOutside(c: CacheState, a: set<string>, x: string)
    requires x !in a
    ensures |Uncached(c, a + {x})| == |Uncached(c, a)| + (if x in c.entries then 0 else 1)
  {
    if x in c.entries {
      assert Uncached(c, a + {x}) == Uncached(c, a);
    } else {
      assert Uncached(c, a + {x}) == Uncached(c, a) + {x};
    }
  }

  /** Priming counts one total prime per path; no lookup or invalidation counter moves. */
  lemma {:induction false} PrimeAllTotals(c: CacheState, order: seq<string>, git: Provider)
    ensures var d := PrimeAll(c, order, git);
            && d.totalPrimes == c.totalPrimes + |order|
            && SameLookupAndInvalidationCounters(c, d)
    decreases |order|
  {
    if |order| > 0 {
      PrimeAllTotals(c, order[..|order| - 1], git);
    }
  }

  /** Priming a repetition-free batch counts one effective prime per path that was absent. */
  lemma {:induction false} PrimeAllEffective(c: CacheState, order: seq<string>, git: Provider)
    requires Distinct(order)
    ensures PrimeAll(c, order, git).effectivePrimes
            == c.effectivePrimes + |Uncached(c, Elements(order))|
    decreases |order|
  {
    if |order| > 0 {
      var prefix := order[..|order| - 1];
      var last := order[|order| - 1];
      assert order == prefix + [last];
      assert Distinct(prefix);
      assert last !in Elements(prefix);
      assert Elements(order) == Elements(prefix) + {last};
      PrimeAllEffective(c, prefix, git);
      PrimeAllKeys(c, prefix, git);
      var d0 := PrimeAll(c, prefix, git);
      assert last in d0.entries <==> last in c.entries;
      AddOneOutside(c, Elements(prefix), last);
    }
  }

  /**
   * Priming a repetition-free batch adds exactly the batch's paths, keeps
   * every existing entry, fills each new one from the provider, counts one
   * total prime per path and one effective prime per path that was absent.
   */
  lemma {:induction false} PrimeAllEffect(c: CacheState, order: seq<string>, git: Provider)
    requires Distinct(order)
    ensures var d := PrimeAll(c, order, git);
            && d.entries.Keys == c.entries.Keys + Elements(order)
            && KeepsEntries(c, d)
            && (forall k :: k in Elements(order) && k !in c.entries ==> d.entries[k] == git(k))
            && d.totalPrimes == c.totalPrimes + |order|
            && d.effectivePrimes == c.effectivePrimes + |Uncached(c, Elements(order))|
            && SameLookupAndInvalidationCounters(c, d)
  {
    PrimeAllKeys(c, order, git);
    PrimeAllKeeps(c, order, git);
    PrimeAllFills(c, order, git);
    PrimeAllTotals(c, order, git);
    PrimeAllEffective(c, order, git);
  }

  /** PrimeAllEffect restated for an enumeration of a set of paths. */
  lemma {:induction false} PrimeBatchEffect(c: CacheState, order: seq<string>, batch: set<string>, git: Provider)
    requires Enumerates(order, batch)
    ensures var d := PrimeAll(c, order, git);
            && d.entries.Keys == c.entries.Keys + batch
            && KeepsEntries(c, d)
            && (forall k :: k in batch && k !in c.entries ==> d.entries[k] == git(k))
            && d.totalPrimes == c.totalPrimes + |batch|
            && d.effectivePrimes == c.effectivePrimes + |Uncached(c, batch)|
            && SameLookupAndInvalidationCounters(c, d)
  {
    PrimeAllEffect(c, order, git);
    DistinctCardinality(order);
  }

  /** Two enumerations of the same batch produce the same map. */
  lemma {:induction false} PrimeOrderSameEntries(c: CacheState, order1: seq<string>, order2: seq<string>, git: Provider)
    requires Distinct(order1) && Distinct(order2)
    requires Elements(order1) == Elements(order2)
    ensures PrimeAll(c, order1, git).entries == PrimeAll(c, order2, git).entries
  {
    PrimeAllKeys(c, order1, git);
    PrimeAllKeys(c, order2, git);
    PrimeAllKeeps(c, order1, git);
    PrimeAllKeeps(c, order2, git);
    PrimeAllFills(c, order1, git);
    PrimeAllFills(c, order2, git);
    var d1 := PrimeAll(c, order1, git);
    var d2 := PrimeAll(c, order2, git);
    forall k | k in d1.entries
      ensures d1.entries[k] == d2.entries[k]
    {
      if k !in c.entries {
        assert k in Elements(order1);
      }
    }
  }

  /** Two enumerations of the same batch leave the cache in the same state. */
  lemma {:induction false} PrimeOrderIrrelevant(c: CacheState, order1: seq<string>, order2: seq<string>, git: Provider)
    requires Distinct(order1) && Distinct(order2)
    requires Elements(order1) == Elements(order2)
    ensures PrimeAll(c, order1, git) == PrimeAll(c, order2, git)
  {
    PrimeOrderSameEntries(c, order1, order2, git);
    PrimeAllTotals(c, order1, git);
    PrimeAllTotals(c, order2, git);
    PrimeAllEffective(c, order1, git);
    PrimeAllEffective(c, order2, git);
    DistinctCardinality(order1);
    DistinctCardinality(order2);
  }

  /** One iteration of the priming loop keeps its invariants. */
  lemma PrimeLoopStep(c: CacheState, order: seq<string>, remaining: set<string>,
                      captured: set<string>, path: string, git: Provider)
    requires remaining !! Elements(order) && remaining + Elements(order) == captured
    requires Distinct(order) && path in remaining
    ensures (remaining - {path}) !! Elements(order + [path])
    ensures (remaining - {path}) + Elements(order + [path]) == captured
    ensures Distinct(order + [path])
    ensures PrimeAll(c, order + [path], git) == PrimeCacheEntry(PrimeAll(c, order, git), path, git)
  {
    AppendFresh(order, path);
  }

  /**
   * Prime: swaps the pending set for an empty one and primes each captured
   * path exactly once, in the (unspecified) order the set is visited; that
   * order is returned as `order`.
   */
  method Prime(p: PrimerState, c: CacheState, git: Provider)
    returns (q: PrimerState, d: CacheState, order: seq<string>)
    ensures q.pending == {} && q.deadline == p.deadline
    ensures Enumerates(order, p.pending)
    ensures d == PrimeAll(c, order, git)
    ensures d.entries.Keys == c.entries.Keys + p.pending
    ensures KeepsEntries(c, d)
    ensures forall k :: k in p.pending && k !in c.entries ==> d.entries[k] == git(k)
    ensures d.totalPrimes == c.totalPrimes + |p.pending|
    ensures d.effectivePrimes == c.effectivePrimes + |Uncached(c, p.pending)|
    ensures SameLookupAndInvalidationCounters(c, d)
  {
    var captured := p.pending;
    q := p.(pending := {});
    var remaining := captured;
    order := [];
    d := c;
    while remaining != {}
      invariant remaining !! Elements(order)
      invariant remaining + Elements(order) == captured
      invariant Distinct(order)
      invariant d == PrimeAll(c, order, git)
      decreases remaining
    {
      var path :| path in remaining;
      PrimeLoopStep(c, order, remaining, captured, path, git);
      d := PrimeCacheEntry(d, path, git);
      order := order + [path];
      remaining := remaining - {path};
    }
    PrimeBatchEffect(c, order, captured, git);
  }

  // ---------------------------------------------------------------------------
  // The timer tick
  // ---------------------------------------------------------------------------

  /** The primer and cache after a step of the background loop. */
  datatype Step = Step(primer: PrimerState, cache: CacheState)

  /**
   * One iteration of WaitForPrimingTimerExpiration, given the clock reading
   * `now` compared with the deadline, the reading `resetNow` taken after
   * priming, and the order in which the pending set is visited.
   */
  function TickStep(p: PrimerState, c: CacheState, git: Provider, now: int, resetNow: int,
                    order: seq<string>): (r: Step)
    requires p.deadline < now ==> Enumerates(order, p.pending)
    ensures p.deadline >= now ==> r == Step(p, c)
    ensures p.deadline < now ==>
              && r.primer.pending == {}
              && r.primer.deadline == resetNow + PRIMING_WINDOW
              && r.cache.entries.Keys == c.entries.Keys + p.pending
              && KeepsEntries(c, r.cache)
              && (forall k :: k in p.pending && k !in c.entries ==> r.cache.entries[k] == git(k))
              && r.cache.totalPrimes == c.totalPrimes + |p.pending|
              && r.cache.effectivePrimes == c.effectivePrimes + |Uncached(c, p.pending)|
              && SameLookupAndInvalidationCounters(c, r.cache)
  {
    if p.deadline < now then
      PrimeBatchEffect(c, order, p.pending, git);
      Step(PrimerState(resetNow + PRIMING_WINDOW, {}), PrimeAll(c, order, git))
    else
      Step(p, c)
  }

  /**
   * The tick as the source runs it: fires exactly when the deadline is
   * strictly before `now`; a deadline equal to `now` does not fire.
   */
  method Tick(p: PrimerState, c: CacheState, git: Provider, now: int, resetNow: int)
    returns (r: Step, fired: bool, order: seq<string>)
    ensures fired <==> p.deadline < now
    ensures fired ==> Enumerates(order, p.pending)
    ensures !fired ==> order == []
    ensures r == TickStep(p, c, git, now, resetNow, order)
  {
    order := [];
    if p.deadline < now {
      var q, d;
      q, d, order := Prime(p, c, git);
      q := q.(deadline := resetNow + PRIMING_WINDOW);
      r := Step(q, d);
      fired := true;
    } else {
      r := Step(p, c);
      fired := false;
    }
  }

  /** A tick at the deadline itself, or before it, changes nothing. */
  lemma NoFireUntilDeadlinePassed(p: PrimerState, c: CacheState, git: Provider, now: int, resetNow: int,
                                  order: seq<string>)
    requires now <= p.deadline
    ensures TickStep(p, c, git, now, resetNow, order) == Step(p, c)
  {
  }

  /**
   * After a firing tick, with nothing scheduled since, the next tick cannot
   * fire until one full window after the post-priming clock reading.
   */
  lemma QuietAfterFiring(p: PrimerState, c: CacheState, git: Provider, now: int, resetNow: int,
                         order: seq<string>, next: int, nextReset: int, nextOrder: seq<string>)
    requires p.deadline < now && Enumerates(order, p.pending)
    requires next <= resetNow + PRIMING_WINDOW
    ensures var s := TickStep(p, c, git, now, resetNow, order);
            TickStep(s.primer, s.cache, git, next, nextReset, nextOrder) == s
  {
  }
}
