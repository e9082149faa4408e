/**
 * The GetStatus timing statistics kept by the status controller: number of
 * calls, total, minimum and maximum of the recorded samples, all unsigned
 * 64-bit, and the integer average reported with the cache statistics.
 */
module GetStatusTiming {

  /** 2^64: the number of values of a 64-bit unsigned integer. */
  const UINT64_RANGE: int := 0x1_0000_0000_0000_0000

  const UINT64_MAX: int := UINT64_RANGE - 1

  type uint64 = x: int | 0 <= x < UINT64_RANGE

  /** The four statistics fields, updated together under one lock. */
  datatype Timing = Timing(
    totalNanoseconds: uint64,
    minNanoseconds: uint64,
    maxNanoseconds: uint64,
    totalCalls: uint64)

  /** The initial values: minimum at UINT64_MAX, everything else zero. */
  function Initial(): (t: Timing)
    ensures t.totalCalls == 0 && t.totalNanoseconds == 0
    ensures t.minNanoseconds == UINT64_MAX && t.maxNanoseconds == 0
  {
    Timing(0, UINT64_MAX, 0, 0)
  }

  /**
   * RecordGetStatusTime: one more call, the sample added to the total (both
   * wrapping modulo 2^64), and the sample folded into the minimum and maximum.
   */
  function Record(t: Timing, sample: uint64): (r: Timing)
    ensures r.totalCalls == (t.totalCalls + 1) % UINT64_RANGE
    ensures r.totalNanoseconds == (t.totalNanoseconds + sample) % UINT64_RANGE
    ensures r.minNanoseconds <= sample && r.minNanoseconds <= t.minNanoseconds
    ensures r.minNanoseconds == sample || r.minNanoseconds == t.minNanoseconds
    ensures r.maxNanoseconds >= sample && r.maxNanoseconds >= t.maxNanoseconds
    ensures r.maxNanoseconds == sample || r.maxNanoseconds == t.maxNanoseconds
  {
    Timing(
      (t.totalNanoseconds + sample) % UINT64_RANGE,
      if sample < t.minNanoseconds then sample else t.minNanoseconds,
      if sample > t.maxNanoseconds then sample else t.maxNanoseconds,
      (t.totalCalls + 1) % UINT64_RANGE)
  }

  /** Records the samples in order. */
  function RecordAll(t: Timing, samples: seq<uint64>): Timing
    decreases |samples|
  {
    if |samples| == 0 then t
    else Record(RecordAll(t, samples[..|samples| - 1]), samples[|samples| - 1])
  }

  /** The exact (unbounded) sum of the samples. */
  function Sum(samples: seq<uint64>): nat
    decreases |samples|
  {
    if |samples| == 0 then 0 else Sum(samples[..|samples| - 1]) + samples[|samples| - 1]
  }

  lemma SmallMod(x: int)
    requires 0 <= x < UINT64_RANGE
    ensures x % UINT64_RANGE == x
  {
  }

  lemma AddMod(a: int, b: int)
    ensures (a % UINT64_RANGE + b) % UINT64_RANGE == (a + b) % UINT64_RANGE
  {
    var q := a / UINT64_RANGE;
    assert a == q * UINT64_RANGE + a % UINT64_RANGE;
    assert a + b == (a % UINT64_RANGE + b) + q * UINT64_RANGE;
  }

  /**
   * From the initial values, the statistics describe the recorded samples:
   * the call count and total are the count and sum modulo 2^64, every
   * sample lies between the minimum and the maximum, and once a sample has
   * been recorded both bounds are samples themselves (so minimum <= maximum).
   */
  lemma {:induction false} RecordAllDescribesSamples(samples: seq<uint64>)
    ensures var t := RecordAll(Initial(), samples);
            && t.totalCalls == |samples| % UINT64_RANGE
            && t.totalNanoseconds == Sum(samples) % UINT64_RANGE
            && (forall i :: 0 <= i < |samples| ==> t.minNanoseconds <= samples[i] <= t.maxNanoseconds)
            && (|samples| > 0 ==> t.minNanoseconds in samples && t.maxNanoseconds in samples)
            && (|samples| > 0 ==> t.minNanoseconds <= t.maxNanoseconds)
            && (|samples| == 0 ==> t == Initial())
    decreases |samples|
  {
    if |samples| > 0 {
      var prefix := samples[..|samples| - 1];
      var last := samples[|samples| - 1];
      RecordAllDescribesSamples(prefix);
      var t0 := RecordAll(Initial(), prefix);
      AddMod(|prefix|, 1);
      AddMod(Sum(prefix), last);
      assert samples == prefix + [last];
      assert forall i :: 0 <= i < |prefix| ==> samples[i] == prefix[i];
      if |prefix| > 0 {
        assert t0.minNanoseconds in samples && t0.maxNanoseconds in samples;
      }
    }
  }

  /**
   * The reported average: total divided by the call count, or 0 when no
   * call has been recorded.
   */
  function AverageNanoseconds(t: Timing): (a: uint64)
    ensures t.totalCalls == 0 ==> a == 0
    ensures t.totalCalls != 0 ==> a * t.totalCalls <= t.totalNanoseconds < (a + 1) * t.totalCalls
  {
    if t.totalCalls != 0 then t.totalNanoseconds / t.totalCalls else 0
  }

  /** n samples each at least lo and at most hi sum to between n * lo and n * hi. */
  lemma {:induction false} SumBounds(samples: seq<uint64>, lo: int, hi: int)
    requires forall i :: 0 <= i < |samples| ==> lo <= samples[i] <= hi
    ensures |samples| * lo <= Sum(samples) <= |samples| * hi
    decreases |samples|
  {
    if |samples| > 0 {
      var prefix := samples[..|samples| - 1];
      assert forall i :: 0 <= i < |prefix| ==> prefix[i] == samples[i];
      SumBounds(prefix, lo, hi);
      assert |samples| * lo == |prefix| * lo + lo;
      assert |samples| * hi == |prefix| * hi + hi;
    }
  }

  /** Integer division of a total lying between n * lo and n * hi lies between lo and hi. */
  lemma {:induction false} DivisionBetween(total: int, n: int, lo: int, hi: int)
    requires 0 < n && 0 <= lo && n * lo <= total <= n * hi
    ensures lo <= total / n <= hi
  {
    var a := total / n;
    assert a * n <= total < (a + 1) * n;
  }

  /**
   * While neither the count nor the total has wrapped, the reported average
   * lies between the reported minimum and maximum.
   */
  lemma {:induction false} AverageWithinBounds(samples: seq<uint64>)
    requires 0 < |samples| < UINT64_RANGE
    requires Sum(samples) < UINT64_RANGE
    ensures var t := RecordAll(Initial(), samples);
            t.minNanoseconds <= AverageNanoseconds(t) <= t.maxNanoseconds
  {
    var t := RecordAll(Initial(), samples);
    RecordAllDescribesSamples(samples);
    SmallMod(|samples|);
    SmallMod(Sum(samples));
    SumBounds(samples, t.minNanoseconds, t.maxNanoseconds);
    DivisionBetween(Sum(samples), |samples|, t.minNanoseconds, t.maxNanoseconds);
    assert AverageNanoseconds(t) == Sum(samples) / |samples|;
  }

  // ---------------------------------------------------------------------------
  // The recorded sample
  // ---------------------------------------------------------------------------

  /**
   * The sample as the request handler computes it: the start reading minus
   * the finish reading, converted to unsigned 64 bits.
   */
  function AsWrittenSample(start: int, finish: int): uint64 {
    (start - finish) % UINT64_RANGE
  }

  /**
   * A call that takes any positive time below 2^63 is recorded as
   * 2^64 minus its duration, never as its duration.
   */
  lemma AsWrittenSampleIsNotElapsed(start: int, finish: int)
    requires start < finish < start + UINT64_RANGE / 2
    ensures AsWrittenSample(start, finish) == UINT64_RANGE - (finish - start)
    ensures AsWrittenSample(start, finish) != finish - start
  {
  }

  /** The smallest case: one tick of work is recorded as UINT64_MAX. */
  lemma AsWrittenSampleOneTick()
    ensures AsWrittenSample(0, 1) == UINT64_MAX
  {
  }

  /**
   * The intended sample: the finish reading minus the start reading,
   * converted to unsigned 64 bits; for a monotonic clock this is the elapsed
   * time.
   */
  function ElapsedSample(start: int, finish: int): (r: uint64)
    ensures 0 <= finish - start < UINT64_RANGE ==> r == finish - start
  {
    (finish - start) % UINT64_RANGE
  }

  /**
   * With the intended sample, the first recorded call reports its elapsed
   * time as total, minimum and maximum.
   */
  lemma ElapsedSampleFirstCall(start: int, finish: int)
    requires 0 <= finish - start < UINT64_RANGE
    ensures var d := finish - start;
            Record(Initial(), ElapsedSample(start, finish)) == Timing(d, d, d, 1)
  {
  }
}
