/** The latency histogram while many goroutines observe at once and one takes a snapshot
    (internal/service/latency.go). A step is one atomic operation on one counter. */
module LatencyRuns {
  import opened Prelude
  import opened Latency

  /** A snapshot half-way: the buckets loaded so far, and the readings that were in their
      buckets when it began. */
  datatype Scan = Scan(start: seq<real>, counts: seq<nat>)

  /** obs: the readings whose bucket was incremented, in that order. A reading then waits to be
      counted, to be summed, to be compared with the maximum, and perhaps to replace it. summed:
      the readings that were added to the sum, in that order. */
  datatype World = World(
    buckets: seq<nat>, count: int, sum: int, max: int, obs: seq<real>, summed: seq<real>,
    toCount: multiset<real>, toSum: multiset<real>, toMax: multiset<real>, toSwap: multiset<(real, int)>,
    scan: Option<Scan>)

  datatype Step =
    | AddBucket(ms: real)
    | AddCount(ms: real)
    | AddSum(ms: real)
    | LoadMax(ms: real)
    | Swap(ms: real, cur: int)
    | StartScan
    | LoadBucket

  predicate Enabled(w: World, s: Step) {
    match s
    case AddBucket(ms) => ms >= 0.0
    case AddCount(ms) => ms in w.toCount
    case AddSum(ms) => ms in w.toSum
    case LoadMax(ms) => ms in w.toMax
    case Swap(ms, cur) => (ms, cur) in w.toSwap
    case StartScan => true
    case LoadBucket => w.scan.Some? && |w.scan.value.counts| < |w.buckets|
  }

  function Next(w: World, s: Step): World
    requires |w.buckets| == OVERFLOW + 1 && Enabled(w, s)
  {
    match s
    case AddBucket(ms) =>
      w.(buckets := w.buckets[BucketOf(ms) := w.buckets[BucketOf(ms)] + 1], obs := w.obs + [ms],
         toCount := w.toCount + multiset{ms})
    case AddCount(ms) =>
      w.(count := w.count + 1, toCount := w.toCount - multiset{ms}, toSum := w.toSum + multiset{ms})
    case AddSum(ms) =>
      w.(sum := w.sum + Micros(ms), summed := w.summed + [ms],
         toSum := w.toSum - multiset{ms}, toMax := w.toMax + multiset{ms})
    case LoadMax(ms) =>
      w.(toMax := w.toMax - multiset{ms},
         toSwap := if Micros(ms) <= w.max then w.toSwap else w.toSwap + multiset{(ms, w.max)})
    case Swap(ms, cur) =>
      // Losing the race means reading the maximum again.
      w.(max := if w.max == cur then Micros(ms) else w.max,
         toSwap := w.toSwap - multiset{(ms, cur)},
         toMax := if w.max == cur then w.toMax else w.toMax + multiset{ms})
    case StartScan => w.(scan := Some(Scan(w.obs, [])))
    case LoadBucket =>
      var c := w.scan.value;
      w.(scan := Some(c.(counts := c.counts + [w.buckets[|c.counts|]])))
  }

  // ----- the invariant

  predicate BucketsHold(w: World) {
    |w.buckets| == OVERFLOW + 1 && forall j :: 0 <= j <= OVERFLOW ==> w.buckets[j] == InBucket(w.obs, j)
  }

  predicate SumsHold(w: World) {
    && w.count == |w.obs| - |w.toCount|
    && w.sum == SumMicros(w.summed)
    && multiset(w.obs) == multiset(w.summed) + w.toCount + w.toSum
  }

  /** The reading has not been compared with the maximum for good. */
  predicate Waiting(w: World, x: real) {
    x in w.toCount || x in w.toSum || x in w.toMax || exists p :: p in w.toSwap && p.0 == x
  }

  predicate Compared(w: World) {
    forall x :: x in w.obs ==> Micros(x) <= w.max || Waiting(w, x)
  }

  predicate Attained(w: World) {
    w.max >= 0 && (w.max > 0 ==> exists x :: x in w.obs && Micros(x) == w.max)
  }

  predicate WaitersAreReadings(w: World) {
    && (forall x :: x in w.toCount + w.toSum + w.toMax ==> x in w.obs)
    && (forall p :: p in w.toSwap ==> p.0 in w.obs)
  }

  predicate SwapsAreGains(w: World) {
    forall p :: p in w.toSwap ==> p.1 < Micros(p.0)
  }

  predicate MaxHolds(w: World) {
    Compared(w) && Attained(w) && WaitersAreReadings(w) && SwapsAreGains(w)
  }

  /** What was loaded lies between what was there at the start and what is there now. */
  predicate ScanHolds(w: World) {
    w.scan.Some? ==>
      var c := w.scan.value;
      && c.start <= w.obs && |c.counts| <= OVERFLOW + 1
      && forall j :: 0 <= j < |c.counts| ==> InBucket(c.start, j) <= c.counts[j] <= InBucket(w.obs, j)
  }

  predicate Inv(w: World) {
    BucketsHold(w) && SumsHold(w) && MaxHolds(w) && ScanHolds(w)
  }

  const FRESH := World(seq(OVERFLOW + 1, _ => 0), 0, 0, 0, [], [], multiset{}, multiset{}, multiset{}, multiset{}, None)

  predicate Runs(w: World, steps: seq<Step>)
    requires |w.buckets| == OVERFLOW + 1
    decreases |steps|
  {
    steps == [] || (Enabled(w, steps[0]) && Runs(Next(w, steps[0]), steps[1..]))
  }

  function After(w: World, steps: seq<Step>): World
    requires |w.buckets| == OVERFLOW + 1 && Runs(w, steps)
    decreases |steps|
  {
    if steps == [] then w else After(Next(w, steps[0]), steps[1..])
  }

  lemma {:induction false} MoreReadings(obs: seq<real>, longer: seq<real>, j: nat)
    requires obs <= longer
    ensures InBucket(obs, j) <= InBucket(longer, j)
    decreases |longer|
  {
    hide BucketOf;
    if |obs| < |longer| { MoreReadings(obs, longer[..|longer| - 1], j); } else { assert obs == longer; }
  }

  lemma StepKeepsBuckets(w: World, s: Step)
    requires BucketsHold(w) && Enabled(w, s)
    ensures BucketsHold(Next(w, s))
  {
    hide BucketOf, InBucket;
    if s.AddBucket? {
      BucketIsInRange(s.ms);
      ObsAppend(w.obs, s.ms);
    }
  }

  lemma StepKeepsSums(w: World, s: Step)
    requires |w.buckets| == OVERFLOW + 1 && SumsHold(w) && Enabled(w, s)
    ensures SumsHold(Next(w, s))
  {
    hide BucketOf, InBucket, Micros, SumMicros;
    match s
    case AddBucket(ms) => OneMore(w.obs, ms);
    case AddCount(ms) =>
    case AddSum(ms) =>
      hide Next, SumsHold;
      SummingKeepsSums(w, ms);
    case _ =>
  }

  lemma SummingKeepsSums(w: World, ms: real)
    requires |w.buckets| == OVERFLOW + 1 && SumsHold(w) && ms in w.toSum
    ensures SumsHold(Next(w, AddSum(ms)))
  {
    hide BucketOf, InBucket, Micros, SumMicros;
    OneMore(w.summed, ms);
    ObsAppend(w.summed, ms);
    assert w.toSum == w.toSum - multiset{ms} + multiset{ms};
  }

  lemma OneMore(s: seq<real>, x: real)
    ensures multiset(s + [x]) == multiset(s) + multiset{x}
  {
  }

  lemma StepKeepsMax(w: World, s: Step)
    requires |w.buckets| == OVERFLOW + 1 && MaxHolds(w) && Enabled(w, s)
    ensures MaxHolds(Next(w, s))
  {
    hide Next, Enabled, Attained, WaitersAreReadings, SwapsAreGains, Waiting, Micros;
    WaitersStayReadings(w, s);
    SwapsStayGains(w, s);
    StaysAttained(w, s);
    forall x | x in Next(w, s).obs ensures Micros(x) <= Next(w, s).max || Waiting(Next(w, s), x) {
      StillWaiting(w, s, x);
    }
  }

  lemma WaitersStayReadings(w: World, s: Step)
    requires |w.buckets| == OVERFLOW + 1 && WaitersAreReadings(w) && Enabled(w, s)
    ensures WaitersAreReadings(Next(w, s))
  {
    hide BucketOf, Micros;
    match s
    case AddBucket(ms) => assert forall x :: x in w.obs + [ms] <==> x in w.obs || x == ms;
    case Swap(ms, cur) => assert (ms, cur) in w.toSwap;
    case _ =>
  }

  lemma SwapsStayGains(w: World, s: Step)
    requires |w.buckets| == OVERFLOW + 1 && SwapsAreGains(w) && Enabled(w, s)
    ensures SwapsAreGains(Next(w, s))
  {
    hide BucketOf, Micros;
  }

  lemma StaysAttained(w: World, s: Step)
    requires |w.buckets| == OVERFLOW + 1 && Attained(w) && WaitersAreReadings(w) && SwapsAreGains(w) && Enabled(w, s)
    ensures Attained(Next(w, s)) && Next(w, s).max >= w.max
  {
    hide BucketOf, Micros;
    match s
    case AddBucket(ms) => assert forall x :: x in w.obs ==> x in w.obs + [ms];
    case Swap(ms, cur) => assert (ms, cur) in w.toSwap && ms in w.obs;
    case _ =>
  }

  lemma StillWaiting(w: World, s: Step, x: real)
    requires |w.buckets| == OVERFLOW + 1 && Attained(w) && WaitersAreReadings(w) && SwapsAreGains(w) && Enabled(w, s)
    requires x in Next(w, s).obs && (x in w.obs ==> Micros(x) <= w.max || Waiting(w, x))
    ensures Micros(x) <= Next(w, s).max || Waiting(Next(w, s), x)
  {
    hide BucketOf, Micros, Attained, WaitersAreReadings, SwapsAreGains;
    StaysAttained(w, s);
    match s
    case LoadMax(ms) =>
      if x == ms && Micros(x) > w.max { assert (x, w.max) in Next(w, s).toSwap; }
      if exists p :: p in w.toSwap && p.0 == x { StillSwapping(w, s, x); }
    case Swap(ms, cur) => if exists p :: p in w.toSwap && p.0 == x { StillSwapping(w, s, x); }
    case _ =>
  }

  lemma StillSwapping(w: World, s: Step, x: real)
    requires |w.buckets| == OVERFLOW + 1 && Enabled(w, s) && (s.LoadMax? || s.Swap?)
    requires exists p :: p in w.toSwap && p.0 == x
    ensures Micros(x) <= Next(w, s).max || Waiting(Next(w, s), x)
  {
    hide BucketOf, Micros;
    var p :| p in w.toSwap && p.0 == x;
    if !(s.Swap? && p == (s.ms, s.cur)) { assert p in Next(w, s).toSwap; }
  }

  lemma StepKeepsScan(w: World, s: Step)
    requires BucketsHold(w) && ScanHolds(w) && Enabled(w, s)
    ensures ScanHolds(Next(w, s))
  {
    hide BucketOf, InBucket;
    if w.scan.Some? {
      var c := w.scan.value;
      match s
      case AddBucket(ms) =>
        forall j | 0 <= j < |c.counts| ensures c.counts[j] <= InBucket(w.obs + [ms], j) {
          MoreReadings(w.obs, w.obs + [ms], j);
        }
      case LoadBucket => MoreReadings(c.start, w.obs, |c.counts|);
      case _ =>
    }
  }

  lemma {:induction false} RunsKeepTheInvariant(w: World, steps: seq<Step>)
    requires Inv(w) && Runs(w, steps)
    ensures Inv(After(w, steps))
    decreases |steps|
  {
    hide Next, Enabled, SumsHold, MaxHolds, ScanHolds, InBucket;
    if steps != [] {
      StepKeepsBuckets(w, steps[0]);
      StepKeepsSums(w, steps[0]);
      StepKeepsMax(w, steps[0]);
      StepKeepsScan(w, steps[0]);
      RunsKeepTheInvariant(Next(w, steps[0]), steps[1..]);
    }
  }

  lemma FreshInv()
    ensures Inv(FRESH)
  {
  }

  // ----- once every reading is through

  predicate AtRest(w: World) {
    w.toCount == w.toSum == w.toMax == multiset{} && w.toSwap == multiset{}
  }

  lemma {:induction false} SumWithout(a: seq<real>, i: nat)
    requires i < |a|
    ensures SumMicros(a) == SumMicros(a[..i] + a[i + 1..]) + Micros(a[i])
  {
    hide Micros;
    var n := |a| - 1;
    if i == n {
      assert a[..i] + a[i + 1..] == a[..n];
    } else {
      SumWithout(a[..n], i);
      assert a[..n][..i] + a[..n][i + 1..] == (a[..i] + a[i + 1..])[..n - 1];
    }
  }

  lemma OneLess(a: seq<real>, i: nat)
    requires i < |a|
    ensures multiset(a[..i] + a[i + 1..]) == multiset(a) - multiset{a[i]}
  {
    assert a == a[..i] + [a[i]] + a[i + 1..];
  }

  lemma {:induction false} SumOfPermutation(a: seq<real>, b: seq<real>)
    requires multiset(a) == multiset(b)
    ensures SumMicros(a) == SumMicros(b)
    decreases |a|
  {
    hide Micros;
    if a == [] {
      assert |multiset(b)| == 0;
    } else {
      var n, x := |a| - 1, a[|a| - 1];
      assert x in multiset(b);
      var i :| 0 <= i < |b| && b[i] == x;
      OneLess(a, n);
      OneLess(b, i);
      assert a[..n] + a[n + 1..] == a[..n];
      SumOfPermutation(a[..n], b[..i] + b[i + 1..]);
      SumWithout(b, i);
    }
  }

  /** No reading is lost, however the goroutines interleave and however often the swap of the
      maximum loses its race: once every reading is through, every counter is the one the
      readings give, taken one after the other. */
  lemma CountersAreExactAtRest(steps: seq<Step>)
    requires Runs(FRESH, steps) && AtRest(After(FRESH, steps))
    ensures var w := After(FRESH, steps);
            && |w.buckets| == OVERFLOW + 1 && (forall j :: 0 <= j <= OVERFLOW ==> w.buckets[j] == InBucket(w.obs, j))
            && w.count == |w.obs| && w.sum == SumMicros(w.obs)
            && (forall x :: x in w.obs ==> Micros(x) <= w.max)
            && (w.max > 0 ==> exists x :: x in w.obs && Micros(x) == w.max)
  {
    hide Runs, After, InBucket, Micros;
    FreshInv();
    RunsKeepTheInvariant(FRESH, steps);
    var w := After(FRESH, steps);
    assert multiset(w.obs) == multiset(w.summed);
    SumOfPermutation(w.obs, w.summed);
  }

  // ----- a snapshot taken meanwhile

  /** The reading, if its bucket has fewer before it than were loaded. */
  function Picked(init: seq<real>, x: real, counts: seq<nat>): seq<real>
    requires |counts| == OVERFLOW + 1
  { if InBucket(init, BucketOf(x)) < counts[BucketOf(x)] then [x] else [] }

  /** The first readings of each bucket, as many as were loaded. */
  function Select(obs: seq<real>, counts: seq<nat>): seq<real>
    requires |counts| == OVERFLOW + 1
  {
    if obs == [] then [] else Select(obs[..|obs| - 1], counts) + Picked(obs[..|obs| - 1], obs[|obs| - 1], counts)
  }

  lemma PickedPerBucket(init: seq<real>, chosen: seq<real>, x: real, counts: seq<nat>, j: nat)
    requires |counts| == OVERFLOW + 1 && j <= OVERFLOW
    requires InBucket(chosen, j) == if InBucket(init, j) <= counts[j] then InBucket(init, j) else counts[j]
    ensures var n := InBucket(init + [x], j);
            InBucket(chosen + Picked(init, x, counts), j) == if n <= counts[j] then n else counts[j]
  {
    hide BucketOf, InBucket;
    ObsAppend(init, x);
    ObsAppend(chosen, x);
    BucketIsInRange(x);
    if Picked(init, x, counts) == [] { assert chosen + [] == chosen; }
  }

  lemma NothingSelected(counts: seq<nat>, j: nat)
    requires |counts| == OVERFLOW + 1
    ensures Select([], counts) == [] && InBucket([], j) == 0
  {
  }

  lemma {:induction false} SelectedPerBucket(obs: seq<real>, counts: seq<nat>, j: nat)
    requires |counts| == OVERFLOW + 1 && j <= OVERFLOW
    ensures InBucket(Select(obs, counts), j) == if InBucket(obs, j) <= counts[j] then InBucket(obs, j) else counts[j]
  {
    hide InBucket, BucketOf, Picked;
    if obs == [] {
      NothingSelected(counts, j);
    } else {
      var init, x := obs[..|obs| - 1], obs[|obs| - 1];
      SelectedPerBucket(init, counts, j);
      PickedPerBucket(init, Select(init, counts), x, counts, j);
      assert obs == init + [x];
    }
  }

  lemma {:induction false} SelectsThemAll(obs: seq<real>, counts: seq<nat>)
    requires |counts| == OVERFLOW + 1 && forall j :: 0 <= j <= OVERFLOW ==> InBucket(obs, j) <= counts[j]
    ensures Select(obs, counts) == obs
  {
    if obs != [] {
      hide BucketOf, InBucket;
      var init, x := obs[..|obs| - 1], obs[|obs| - 1];
      assert obs == init + [x];
      BucketIsInRange(x);
      ObsAppend(init, x);
      forall j | 0 <= j <= OVERFLOW ensures InBucket(init, j) <= counts[j] { MoreReadings(init, obs, j); }
      SelectsThemAll(init, counts);
    }
  }

  lemma {:induction false} SelectionGrows(obs: seq<real>, longer: seq<real>, counts: seq<nat>)
    requires |counts| == OVERFLOW + 1 && obs <= longer
    ensures Select(obs, counts) <= Select(longer, counts)
    decreases |longer|
  {
    hide Picked;
    if |obs| == |longer| {
      assert obs == longer;
    } else {
      SelectionGrows(obs, longer[..|longer| - 1], counts);
    }
  }

  lemma {:induction false} SelectionIsOfReadings(obs: seq<real>, counts: seq<nat>)
    requires |counts| == OVERFLOW + 1
    ensures multiset(Select(obs, counts)) <= multiset(obs)
  {
    hide BucketOf, InBucket;
    if obs != [] {
      var init, x := obs[..|obs| - 1], obs[|obs| - 1];
      SelectionIsOfReadings(init, counts);
      assert obs == init + [x];
      assert multiset(Picked(init, x, counts)) <= multiset{x};
    }
  }

  /** A snapshot taken while others observe is a snapshot of readings: of some that were in by
      its end, with all that were in when it began. So its quantiles are in order, and each lies
      in the bucket of a reading of its rank among those. */
  lemma SnapshotIsOfReadings(steps: seq<Step>, q: real, r: real)
    requires Runs(FRESH, steps) && 0.0 < q <= r <= 1.0
    requires var w := After(FRESH, steps); w.scan.Some? && |w.scan.value.counts| == OVERFLOW + 1
    ensures var w := After(FRESH, steps);
            var c := w.scan.value;
            var seen := Select(w.obs, c.counts);
            && c.start <= seen && multiset(seen) <= multiset(w.obs)
            && Total(c.counts, OVERFLOW + 1) == |seen|
            && (forall j :: 0 <= j <= OVERFLOW ==> c.counts[j] == InBucket(seen, j))
            && Percentile(c.counts, |seen|, q) <= Percentile(c.counts, |seen|, r) <= LAST
            && Sound(seen, q, Percentile(c.counts, |seen|, q))
  {
    hide Runs, After, InBucket, Sound, Percentile, Select, Total;
    FreshInv();
    RunsKeepTheInvariant(FRESH, steps);
    var w := After(FRESH, steps);
    var c := w.scan.value;
    var seen := Select(w.obs, c.counts);
    forall j | 0 <= j <= OVERFLOW ensures c.counts[j] == InBucket(seen, j) { SelectedPerBucket(w.obs, c.counts, j); }
    SelectsThemAll(c.start, c.counts);
    SelectionGrows(c.start, w.obs, c.counts);
    SelectionIsOfReadings(w.obs, c.counts);
    TotalCountsReadings(seen, c.counts, OVERFLOW + 1);
    BelowEverything(seen);
    PercentileIsMonotone(c.counts, |seen|, q, r);
    QuantileIsSound(seen, c.counts, q);
  }
}
