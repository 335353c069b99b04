/** The query-latency histogram (internal/service/latency.go) and the quantiles read back
    from its bucket counts. Milliseconds are real numbers. */
module Latency {

  const BOUNDS: seq<real> := [
    0.05, 0.1, 0.25, 0.5, 1.0, 2.0, 5.0, 10.0, 20.0, 35.0, 50.0, 75.0, 100.0, 150.0, 250.0, 500.0, 1000.0, 2000.0]

  const OVERFLOW: nat := 18
  const LAST: real := 2000.0

  function Upper(i: nat): real {
    if i < OVERFLOW then BOUNDS[i] else LAST
  }

  function Lower(i: nat): real {
    if i == 0 then 0.0 else Upper(i - 1)
  }

  lemma EdgesIncrease(i: nat, j: nat)
    requires i < j
    ensures 0.0 <= Lower(i) <= Upper(i) <= Lower(j) <= Upper(j) <= LAST
  {
  }

  /** The first bucket whose edge is not below the reading. */
  function BucketFrom(ms: real, i: nat): (b: nat)
    requires i <= OVERFLOW
    ensures i <= b <= OVERFLOW
    ensures b < OVERFLOW ==> ms <= Upper(b)
    ensures forall j :: i <= j < b ==> Upper(j) < ms
    decreases OVERFLOW - i
  {
    if i < OVERFLOW && ms > Upper(i) then BucketFrom(ms, i + 1) else i
  }

  function BucketOf(ms: real): nat { BucketFrom(ms, 0) }

  lemma SmallerReadingsSortLower(a: real, b: real)
    requires BucketOf(a) < BucketOf(b)
    ensures a < b
  {
  }

  /** How many readings fell into bucket i. */
  function InBucket(obs: seq<real>, i: nat): nat {
    if obs == [] then 0
    else InBucket(obs[..|obs| - 1], i) + (if BucketOf(obs[|obs| - 1]) == i then 1 else 0)
  }

  /** How many readings fell into a bucket before i. */
  function Below(obs: seq<real>, i: nat): nat {
    if obs == [] then 0
    else Below(obs[..|obs| - 1], i) + (if BucketOf(obs[|obs| - 1]) < i then 1 else 0)
  }

  function Micros(ms: real): int { (ms * 1000.0).Floor }

  function SumMicros(obs: seq<real>): int {
    if obs == [] then 0 else SumMicros(obs[..|obs| - 1]) + Micros(obs[|obs| - 1])
  }

  /** The edge scan of observe. */
  method FindBucket(ms: real) returns (idx: nat)
    ensures idx == BucketOf(ms) <= OVERFLOW
  {
    hide Upper;
    idx := OVERFLOW;
    for i := 0 to OVERFLOW
      invariant idx == OVERFLOW && BucketOf(ms) == BucketFrom(ms, i)
    {
      if ms <= Upper(i) { return i; }
    }
  }

  /** What a caller may hand in: a number, or one of the values that are none. */
  datatype Reading = Number(ms: real) | NonFinite

  class LatencyHistogram {
    const buckets: array<nat>
    var count: nat
    var sumMicros: int
    var maxMicros: int
    /** Every reading that was counted. */
    ghost var obs: seq<real>

    ghost predicate Valid()
      reads this, buckets
    {
      && buckets.Length == OVERFLOW + 1
      && (forall i :: 0 <= i <= OVERFLOW ==> buckets[i] == InBucket(obs, i))
      && count == |obs|
      && sumMicros == SumMicros(obs)
      && maxMicros >= 0
      && (forall x :: x in obs ==> 0.0 <= x && Micros(x) <= maxMicros)
      && (maxMicros > 0 ==> exists x :: x in obs && Micros(x) == maxMicros)
    }

    constructor ()
      ensures Valid() && obs == [] && fresh(buckets)
    {
      buckets := new nat[OVERFLOW + 1](_ => 0);
      count, sumMicros, maxMicros, obs := 0, 0, 0, [];
    }

    /** A reading that is negative or no finite number is dropped. */
    method Observe(reading: Reading)
      requires Valid()
      modifies this, buckets
      ensures Valid() && obs == if reading.NonFinite? || reading.ms < 0.0 then old(obs) else old(obs) + [reading.ms]
    {
      hide BucketOf, InBucket;
      if reading.NonFinite? || reading.ms < 0.0 { return; }
      var ms := reading.ms;
      var idx := FindBucket(ms);
      var micros := (ms * 1000.0).Floor;
      ObsAppend(obs, ms);
      buckets[idx] := buckets[idx] + 1;
      count := count + 1;
      sumMicros := sumMicros + micros;
      if micros > maxMicros { maxMicros := micros; }
      obs := obs + [ms];
      assert forall x :: x in obs <==> x in old(obs) || x == ms;
      assert ms in obs;
    }

    /** The bucket counts a snapshot works from. */
    method Load() returns (counts: seq<nat>, total: nat)
      requires Valid()
      ensures |counts| == OVERFLOW + 1 && total == |obs| == Total(counts, OVERFLOW + 1)
      ensures forall i :: 0 <= i <= OVERFLOW ==> counts[i] == InBucket(obs, i)
    {
      counts, total := [], 0;
      for i := 0 to buckets.Length
        invariant |counts| == i && forall j :: 0 <= j < i ==> counts[j] == buckets[j]
        invariant total == Total(counts, i)
      {
        TotalOfPrefix(counts, [buckets[i]], i);
        counts := counts + [buckets[i]];
        total := total + buckets[i];
      }
      TotalCountsReadings(obs, counts, OVERFLOW + 1);
      BelowEverything(obs);
    }

    /** With nobody observing meanwhile: the quantiles are in order and each is sound, and the
        average and the maximum are exact to the microsecond each reading was cut to. */
    method TakeSnapshot() returns (s: Snapshot)
      requires Valid()
      ensures s.count == |obs| && s.max == maxMicros as real / 1000.0
      ensures forall x :: x in obs ==> x < s.max + 0.001
      ensures obs == [] ==> s.avg == s.p50 == s.p95 == s.p99 == 0.0
      ensures obs != [] ==> s.avg * |obs| as real <= Sum(obs) < (s.avg + 0.001) * |obs| as real
      ensures s.max > 0.0 ==> exists x :: x in obs && s.max <= x
      ensures 0.0 <= s.p50 <= s.p95 <= s.p99 <= LAST
      ensures Sound(obs, 0.50, s.p50) && Sound(obs, 0.95, s.p95) && Sound(obs, 0.99, s.p99)
    {
      hide Sound, InBucket, Percentile;
      var counts, total := Load();
      var max := maxMicros as real / 1000.0;
      NearlyTheReading(obs, maxMicros);
      NearlyTheSum(obs);
      QuantileIsSound(obs, counts, 0.50);
      QuantileIsSound(obs, counts, 0.95);
      QuantileIsSound(obs, counts, 0.99);
      PercentileIsMonotone(counts, total, 0.50, 0.95);
      PercentileIsMonotone(counts, total, 0.95, 0.99);
      if total == 0 {
        NothingToReport(counts);
        return Snapshot(0, 0.0, 0.0, 0.0, 0.0, max);
      }
      var p50 := PercentileFrom(counts, total, 0.50);
      var p95 := PercentileFrom(counts, total, 0.95);
      var p99 := PercentileFrom(counts, total, 0.99);
      var avg := sumMicros as real / 1000.0 / total as real;
      assert avg * total as real == sumMicros as real / 1000.0;
      return Snapshot(total, avg, p50, p95, p99, max);
    }
  }

  datatype Snapshot = Snapshot(count: nat, avg: real, p50: real, p95: real, p99: real, max: real)

  lemma NearlyTheReading(obs: seq<real>, maxMicros: int)
    requires forall x :: x in obs ==> Micros(x) <= maxMicros
    ensures forall x :: x in obs ==> x < maxMicros as real / 1000.0 + 0.001
    ensures forall x :: x in obs && Micros(x) == maxMicros ==> maxMicros as real / 1000.0 <= x
  {
  }

  function Sum(obs: seq<real>): real {
    if obs == [] then 0.0 else Sum(obs[..|obs| - 1]) + obs[|obs| - 1]
  }

  /** Cutting readings to microseconds loses less than one of them each. */
  lemma {:induction false} NearlyTheSum(obs: seq<real>)
    ensures SumMicros(obs) as real / 1000.0 <= Sum(obs)
    ensures obs != [] ==> Sum(obs) < SumMicros(obs) as real / 1000.0 + 0.001 * |obs| as real
  {
    if obs != [] { NearlyTheSum(obs[..|obs| - 1]); }
  }

  lemma NothingToReport(counts: seq<nat>)
    ensures Percentile(counts, 0, 0.50) == Percentile(counts, 0, 0.95) == Percentile(counts, 0, 0.99) == 0.0
  {
  }

  lemma ObsAppend(obs: seq<real>, ms: real)
    ensures forall i :: 0 <= i ==> InBucket(obs + [ms], i) == InBucket(obs, i) + (if BucketOf(ms) == i then 1 else 0)
    ensures SumMicros(obs + [ms]) == SumMicros(obs) + Micros(ms)
  {
    assert (obs + [ms])[..|obs|] == obs;
  }

  /** The counts of the first i buckets, added up. */
  function Total(counts: seq<nat>, i: nat): nat
    requires i <= |counts|
  {
    if i == 0 then 0 else Total(counts, i - 1) + counts[i - 1]
  }

  lemma {:induction false} TotalOfPrefix(counts: seq<nat>, more: seq<nat>, i: nat)
    requires i <= |counts|
    ensures Total(counts + more, i) == Total(counts, i)
  {
    if i > 0 { TotalOfPrefix(counts, more, i - 1); }
  }

  lemma {:induction false} TotalIncreases(counts: seq<nat>, i: nat, j: nat)
    requires i <= j <= |counts|
    ensures Total(counts, i) <= Total(counts, j)
    decreases j - i
  {
    if i < j { TotalIncreases(counts, i, j - 1); }
  }

  // ----- reading a quantile

  function Clamp(x: real): real {
    if x < 0.0 then 0.0 else if x > 1.0 then 1.0 else x
  }

  /** The value interpolated inside bucket i. */
  function Within(counts: seq<nat>, i: nat, target: real): real
    requires i < |counts|
  {
    if i >= OVERFLOW then LAST
    else if counts[i] == 0 then Upper(i)
    else Interpolate(Lower(i), Upper(i), (target - Total(counts, i) as real) / counts[i] as real)
  }

  function Interpolate(lower: real, upper: real, frac: real): real {
    lower + (upper - lower) * Clamp(frac)
  }

  /** The first bucket, from i on, whose running total reaches the target. */
  function RankBucket(counts: seq<nat>, target: real, i: nat): (b: nat)
    requires i <= |counts|
    ensures i <= b <= |counts|
    decreases |counts| - i
  {
    if i == |counts| || Total(counts, i + 1) as real >= target then i else RankBucket(counts, target, i + 1)
  }

  function Target(q: real, total: nat): real { q * total as real }

  /** What percentileFrom reports for a quantile. */
  function Percentile(counts: seq<nat>, total: nat, q: real): real {
    var target := Target(q, total);
    var b := RankBucket(counts, target, 0);
    if total == 0 then 0.0 else if b == |counts| then LAST else Within(counts, b, target)
  }

  method PercentileFrom(counts: seq<nat>, total: nat, q: real) returns (p: real)
    ensures p == Percentile(counts, total, q)
  {
    if total == 0 { return 0.0; }
    var target := Target(q, total);
    var cumulative := 0.0;
    for i := 0 to |counts|
      invariant cumulative == Total(counts, i) as real
      invariant RankBucket(counts, target, i) == RankBucket(counts, target, 0)
    {
      hide Target, Upper, Interpolate;
      var below := cumulative;
      cumulative := cumulative + counts[i] as real;
      if cumulative < target { continue; }
      if i >= OVERFLOW { return LAST; }
      var upper := Upper(i);
      if counts[i] == 0 { return upper; }
      var lower := if i > 0 then Upper(i - 1) else 0.0;
      var frac := (target - below) / counts[i] as real;
      return Interpolate(lower, upper, frac);
    }
    return LAST;
  }

  /** The bucket found is the one that holds the target, by its running totals. */
  lemma {:induction false} RankBucketHoldsTheTarget(counts: seq<nat>, target: real, i: nat, b: nat)
    requires i <= b < |counts|
    requires (b == i || (Total(counts, b) as real) < target) && target <= Total(counts, b + 1) as real
    ensures RankBucket(counts, target, i) == b
    decreases b - i
  {
    if i < b {
      TotalIncreases(counts, i + 1, b);
      RankBucketHoldsTheTarget(counts, target, i + 1, b);
    }
  }

  /** A larger target is reached no earlier. */
  lemma {:induction false} RankBucketIsMonotone(counts: seq<nat>, t: real, u: real, i: nat)
    requires i <= |counts| && t <= u
    ensures RankBucket(counts, t, i) <= RankBucket(counts, u, i)
    decreases |counts| - i
  {
    if i < |counts| { RankBucketIsMonotone(counts, t, u, i + 1); }
  }

  lemma WithinItsBucket(counts: seq<nat>, i: nat, target: real)
    requires i < |counts| == OVERFLOW + 1
    ensures Lower(i) <= Within(counts, i, target) <= Upper(i)
  {
    EdgesIncrease(i, i + 1);
    if i < OVERFLOW && counts[i] != 0 {
      var c := Clamp((target - Total(counts, i) as real) / counts[i] as real);
      ScaleByFraction(Upper(i) - Lower(i), c);
    }
  }

  lemma ScaleByFraction(w: real, c: real)
    requires 0.0 <= w && 0.0 <= c <= 1.0
    ensures 0.0 <= w * c <= w
  {
    assert w - w * c == w * (1.0 - c);
  }

  /** Inside one bucket the interpolation follows the target. */
  lemma WithinIsMonotone(counts: seq<nat>, i: nat, t: real, u: real)
    requires i < |counts| == OVERFLOW + 1 && t <= u
    ensures Within(counts, i, t) <= Within(counts, i, u)
  {
    if i < OVERFLOW && counts[i] != 0 {
      var n := counts[i] as real;
      var below := Total(counts, i) as real;
      DivideMonotone(t - below, u - below, n);
      EdgesIncrease(i, i + 1);
      var c, d := Clamp((t - below) / n), Clamp((u - below) / n);
      ScaleMonotone(Upper(i) - Lower(i), c, d);
    }
  }

  lemma DivideMonotone(a: real, b: real, n: real)
    requires a <= b && n > 0.0
    ensures a / n <= b / n
  {
  }

  lemma ScaleMonotone(w: real, c: real, d: real)
    requires 0.0 <= w && c <= d
    ensures w * c <= w * d
  {
    assert w * d - w * c == w * (d - c);
  }

  /** A quantile never falls as q grows, and never leaves the range of the edges. */
  lemma PercentileIsMonotone(counts: seq<nat>, total: nat, q: real, r: real)
    requires |counts| == OVERFLOW + 1 && q <= r
    ensures 0.0 <= Percentile(counts, total, q) <= Percentile(counts, total, r) <= LAST
  {
    hide Within, Upper, Lower, Target;
    TargetIsMonotone(q, r, total);
    var t, u := Target(q, total), Target(r, total);
    RankBucketIsMonotone(counts, t, u, 0);
    var i, j := RankBucket(counts, t, 0), RankBucket(counts, u, 0);
    if i < |counts| { WithinItsBucket(counts, i, t); EdgesIncrease(i, i + 1); }
    if j < |counts| {
      WithinItsBucket(counts, j, u);
      EdgesIncrease(j, j + 1);
      if i == j { WithinIsMonotone(counts, i, t, u); } else { EdgesIncrease(i, j); }
    }
  }

  /** Inside its bucket the value stands where the target stands among the bucket's readings, taken
      to be spread evenly from the lower edge to the upper. */
  lemma QuantileIsSpreadEvenly(counts: seq<nat>, total: nat, q: real, b: nat)
    requires |counts| == OVERFLOW + 1 && total > 0 && b < OVERFLOW && counts[b] > 0
    requires Total(counts, b) as real < q * total as real <= Total(counts, b + 1) as real
    ensures var p := Percentile(counts, total, q);
            (p - Lower(b)) * counts[b] as real == (Upper(b) - Lower(b)) * (q * total as real - Total(counts, b) as real)
  {
    hide Upper, Lower;
    var target := Target(q, total);
    RankBucketHoldsTheTarget(counts, target, 0, b);
    var n := counts[b] as real;
    SpreadEvenly(Lower(b), Upper(b), target - Total(counts, b) as real, n);
  }

  /** Outside (0, 1] a quantile is an end of the scale: the lowest edge there is a reading for, or the
      first edge if the first bucket is empty; and the last edge. Without readings it is zero. */
  lemma QuantilesOutsideTheRange(counts: seq<nat>, total: nat, q: real)
    requires |counts| == OVERFLOW + 1 && total == Total(counts, OVERFLOW + 1)
    ensures total == 0 ==> Percentile(counts, total, q) == 0.0
    ensures total > 0 && q <= 0.0 ==> Percentile(counts, total, q) == if counts[0] == 0 then BOUNDS[0] else 0.0
    ensures total > 0 && q > 1.0 ==> Percentile(counts, total, q) == 2000.0
  {
    var target := Target(q, total);
    if total > 0 && q <= 0.0 {
      ScaleMonotone(total as real, q, 0.0);
      assert Total(counts, 0) == 0;
      if counts[0] > 0 { BelowTheFirst(target, counts[0] as real); }
    } else if total > 0 && q > 1.0 {
      assert target - total as real == (q - 1.0) * total as real > 0.0;
      NeverReached(counts, target, 0);
    }
  }

  lemma BelowTheFirst(target: real, n: real)
    requires target <= 0.0 && n > 0.0
    ensures Interpolate(0.0, BOUNDS[0], target / n) == 0.0
  {
    DivideMonotone(target, 0.0, n);
  }

  lemma {:induction false} NeverReached(counts: seq<nat>, target: real, i: nat)
    requires i <= |counts| && target > Total(counts, |counts|) as real
    ensures RankBucket(counts, target, i) == |counts|
    decreases |counts| - i
  {
    if i < |counts| {
      TotalIncreases(counts, i + 1, |counts|);
      NeverReached(counts, target, i + 1);
    }
  }

  lemma SpreadEvenly(lower: real, upper: real, part: real, n: real)
    requires n > 0.0 && 0.0 <= part <= n
    ensures (Interpolate(lower, upper, part / n) - lower) * n == (upper - lower) * part
  {
    FractionOf(part, n);
    var frac := part / n;
    assert (upper - lower) * frac * n == (upper - lower) * (frac * n);
  }

  lemma FractionOf(part: real, n: real)
    requires n > 0.0 && 0.0 <= part <= n
    ensures 0.0 <= part / n <= 1.0 && part / n * n == part
  {
    DivideMonotone(0.0, part, n);
    DivideMonotone(part, n, n);
  }

  lemma TargetIsMonotone(q: real, r: real, total: nat)
    requires q <= r
    ensures Target(q, total) <= Target(r, total)
  {
    ScaleMonotone(total as real, q, r);
  }

  // ----- the quantile and the readings

  lemma {:induction false} BelowNext(obs: seq<real>, i: nat)
    ensures Below(obs, i + 1) == Below(obs, i) + InBucket(obs, i)
  {
    if obs != [] { BelowNext(obs[..|obs| - 1], i); }
  }

  lemma {:induction false} TotalCountsReadings(obs: seq<real>, counts: seq<nat>, i: nat)
    requires i <= |counts| && forall j :: 0 <= j < |counts| ==> counts[j] == InBucket(obs, j)
    ensures Total(counts, i) == Below(obs, i)
  {
    if i == 0 { BelowNothing(obs); } else { TotalCountsReadings(obs, counts, i - 1); BelowNext(obs, i - 1); }
  }

  lemma {:induction false} BelowNothing(obs: seq<real>)
    ensures Below(obs, 0) == 0
  {
    if obs != [] { BelowNothing(obs[..|obs| - 1]); }
  }

  lemma {:induction false} BelowEverything(obs: seq<real>)
    ensures Below(obs, OVERFLOW + 1) == |obs|
  {
    if obs != [] { BelowEverything(obs[..|obs| - 1]); }
  }

  function CountLess(obs: seq<real>, v: real): nat {
    if obs == [] then 0 else CountLess(obs[..|obs| - 1], v) + (if obs[|obs| - 1] < v then 1 else 0)
  }

  function CountUpTo(obs: seq<real>, v: real): nat {
    if obs == [] then 0 else CountUpTo(obs[..|obs| - 1], v) + (if obs[|obs| - 1] <= v then 1 else 0)
  }

  /** v is a k-th smallest reading. */
  predicate KthSmallest(obs: seq<real>, k: nat, v: real) {
    CountLess(obs, v) < k <= CountUpTo(obs, v)
  }

  lemma {:induction false} BucketsSeparateReadings(obs: seq<real>, v: real)
    ensures Below(obs, BucketOf(v)) <= CountLess(obs, v)
    ensures CountUpTo(obs, v) <= Below(obs, BucketOf(v) + 1)
  {
    hide BucketOf;
    if obs != [] {
      var x := obs[|obs| - 1];
      BucketsSeparateReadings(obs[..|obs| - 1], v);
      if BucketOf(x) < BucketOf(v) { SmallerReadingsSortLower(x, v); }
      if BucketOf(v) < BucketOf(x) { SmallerReadingsSortLower(v, x); }
    }
  }

  /** The k-th smallest reading, for the least k with k >= q * n. */
  predicate IsRank(k: nat, q: real, n: nat) {
    k as real >= q * n as real > k as real - 1.0
  }

  /** Soundness: for 0 < q <= 1 the reported quantile lies inside the bucket that holds the
      reading of rank ceil(q * n), and is the last edge if that reading overflowed. */
  lemma QuantileLiesInTheRanksBucket(obs: seq<real>, counts: seq<nat>, q: real, k: nat, v: real)
    requires |counts| == OVERFLOW + 1 && forall j :: 0 <= j < |counts| ==> counts[j] == InBucket(obs, j)
    requires 0.0 < q <= 1.0 && IsRank(k, q, |obs|) && KthSmallest(obs, k, v)
    ensures var p := Percentile(counts, |obs|, q);
            && Lower(BucketOf(v)) <= p <= Upper(BucketOf(v))
            && (BucketOf(v) == OVERFLOW ==> p == LAST)
  {
    hide BucketOf, Within, Upper, Lower, InBucket;
    var b := BucketOf(v);
    var target := Target(q, |obs|);
    BucketsSeparateReadings(obs, v);
    BucketIsInRange(v);
    TotalCountsReadings(obs, counts, b);
    TotalCountsReadings(obs, counts, b + 1);
    RankBucketHoldsTheTarget(counts, target, 0, b);
    WithinItsBucket(counts, b, target);
    OverflowReportsTheLastEdge(counts, target);
  }

  /** The reported value is in the bucket of every reading of the quantile's rank. */
  ghost predicate Sound(obs: seq<real>, q: real, p: real) {
    forall k: nat, v: real :: IsRank(k, q, |obs|) && KthSmallest(obs, k, v) ==>
      Lower(BucketOf(v)) <= p <= Upper(BucketOf(v)) && (BucketOf(v) == OVERFLOW ==> p == LAST)
  }

  lemma QuantileIsSound(obs: seq<real>, counts: seq<nat>, q: real)
    requires |counts| == OVERFLOW + 1 && forall j :: 0 <= j < |counts| ==> counts[j] == InBucket(obs, j)
    requires 0.0 < q <= 1.0
    ensures Sound(obs, q, Percentile(counts, |obs|, q))
  {
    hide BucketOf, InBucket, Upper, Lower, Percentile, IsRank, KthSmallest;
    forall k: nat, v: real | IsRank(k, q, |obs|) && KthSmallest(obs, k, v)
      ensures var p := Percentile(counts, |obs|, q);
              Lower(BucketOf(v)) <= p <= Upper(BucketOf(v)) && (BucketOf(v) == OVERFLOW ==> p == LAST)
    {
      QuantileLiesInTheRanksBucket(obs, counts, q, k, v);
    }
  }

  lemma BucketIsInRange(v: real)
    ensures BucketOf(v) <= OVERFLOW
  {
  }

  lemma OverflowReportsTheLastEdge(counts: seq<nat>, target: real)
    requires |counts| == OVERFLOW + 1
    ensures Within(counts, OVERFLOW, target) == LAST
  {
  }

  /** Every rank up to the number of readings is some reading's, so the soundness above
      covers every quantile of a non-empty histogram. */
  lemma EveryRankIsSomeReadings(obs: seq<real>, k: nat) returns (v: real)
    requires 0 < k <= |obs|
    ensures v in obs && KthSmallest(obs, k, v)
  {
    var top := AboveEverything(obs);
    v := Descend(obs, k, top);
  }

  lemma {:induction false} AboveEverything(obs: seq<real>) returns (v: real)
    ensures CountLess(obs, v) == |obs|
  {
    if obs == [] { return 0.0; }
    var w := AboveEverything(obs[..|obs| - 1]);
    v := if w <= obs[|obs| - 1] then obs[|obs| - 1] + 1.0 else w;
    CountsIncrease(obs[..|obs| - 1], w, v);
  }

  lemma {:induction false} CountsIncrease(obs: seq<real>, v: real, w: real)
    requires v <= w
    ensures CountLess(obs, v) <= CountLess(obs, w) <= |obs|
    ensures CountUpTo(obs, v) <= CountUpTo(obs, w)
    ensures v < w ==> CountUpTo(obs, v) <= CountLess(obs, w)
  {
    if obs != [] { CountsIncrease(obs[..|obs| - 1], v, w); }
  }

  lemma {:induction false} MembersCount(obs: seq<real>, v: real)
    ensures CountLess(obs, v) <= CountUpTo(obs, v)
    ensures v in obs ==> CountLess(obs, v) < CountUpTo(obs, v)
  {
    if obs != [] { MembersCount(obs[..|obs| - 1], v); }
  }

  lemma {:induction false} LargestBelow(obs: seq<real>, v: real) returns (w: real)
    requires CountLess(obs, v) > 0
    ensures w in obs && w < v && CountUpTo(obs, w) == CountLess(obs, v)
  {
    var init, x := obs[..|obs| - 1], obs[|obs| - 1];
    if CountLess(init, v) == 0 {
      w := x;
      CountsIncrease(init, w, v);
    } else {
      var u := LargestBelow(init, v);
      w := if u < x < v then x else u;
      CountsIncrease(init, u, w);
      CountsIncrease(init, w, v);
    }
  }

  lemma {:induction false} Descend(obs: seq<real>, k: nat, v: real) returns (w: real)
    requires 0 < k <= CountLess(obs, v)
    ensures w in obs && KthSmallest(obs, k, w)
    decreases CountLess(obs, v)
  {
    w := LargestBelow(obs, v);
    MembersCount(obs, w);
    if k <= CountLess(obs, w) { w := Descend(obs, k, w); }
  }
}
