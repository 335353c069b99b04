/** Quota periods: the boundaries of a recurring cycle, the catch-up walk over them,
    and what one sweep decides for one account (internal/service/traffic_cycle.go). */
module TrafficCycle {
  import opened Prelude
  import opened Calendar
  import opened Text

  const MAX_CATCH_UP_CYCLES: nat := 100_000

  // ----- cycle names

  function NormalizeTrafficCycle(raw: string): Option<string> {
    var name := ToLower(TrimSpace(raw));
    if name == "" || name == "daily" || name == "weekly" || name == "monthly" then Some(name) else None
  }

  lemma CanonicalNames()
    ensures NormalizeTrafficCycle("") == Some("")
    ensures NormalizeTrafficCycle("daily") == Some("daily")
    ensures NormalizeTrafficCycle("weekly") == Some("weekly")
    ensures NormalizeTrafficCycle("monthly") == Some("monthly")
  {
  }

  /** The name a record is stored under reads back as itself. */
  lemma NormalizedNamesAreCanonical(raw: string)
    requires NormalizeTrafficCycle(raw).Some?
    ensures NormalizeTrafficCycle(NormalizeTrafficCycle(raw).value) == NormalizeTrafficCycle(raw)
  {
    hide TrimSpace, ToLower;
    CanonicalNames();
    var name := NormalizeTrafficCycle(raw).value;
    assert name in {"", "daily", "weekly", "monthly"};
  }

  /** Which names are accepted: the four, in any case, with any white space around them. */
  lemma AcceptedNames(pre: string, name: string, post: string)
    requires AllSpace(pre) && AllSpace(post) && Trimmed(name)
    ensures NormalizeTrafficCycle(pre + name + post) ==
            if ToLower(name) in {"", "daily", "weekly", "monthly"} then Some(ToLower(name)) else None
  {
    hide TrimSpace, ToLower;
    PaddingIsDropped(pre, name, post);
  }

  // ----- boundaries

  /** The instant the n-th period after the anchor ends. */
  function TrafficCycleEnd(cycle: string, anchor: Time, n: nat): Option<Time> {
    if anchor == 0 || n > MAX_CATCH_UP_CYCLES then None
    else if cycle == "daily" then Some(AddDays(anchor, n + 1))
    else if cycle == "weekly" then Some(AddDays(anchor, 7 * (n + 1)))
    else if cycle == "monthly" then Some(AddMonthsClamped(anchor, n + 1))
    else None
  }

  predicate Recurs(cycle: string) {
    cycle == "daily" || cycle == "weekly" || cycle == "monthly"
  }

  lemma BoundaryExists(cycle: string, anchor: Time, n: nat)
    ensures TrafficCycleEnd(cycle, anchor, n).Some? <==>
            anchor != 0 && n <= MAX_CATCH_UP_CYCLES && Recurs(cycle)
  {
  }

  /** Every period has a positive length, the first included. */
  lemma BoundariesIncrease(cycle: string, anchor: Time, m: nat, n: nat)
    requires m < n
    requires TrafficCycleEnd(cycle, anchor, n).Some?
    ensures TrafficCycleEnd(cycle, anchor, m).Some?
    ensures anchor < TrafficCycleEnd(cycle, anchor, m).value < TrafficCycleEnd(cycle, anchor, n).value
  {
    hide AddDays, AddMonthsClamped;
    AddDaysIsWholeDays(anchor, m + 1);
    AddDaysIsWholeDays(anchor, n + 1);
    AddDaysIsWholeDays(anchor, 7 * (m + 1));
    AddDaysIsWholeDays(anchor, 7 * (n + 1));
    AddNoMonths(anchor);
    AddMonthsIncreases(anchor, 0, m + 1);
    AddMonthsIncreases(anchor, m + 1, n + 1);
  }

  /** Days and weeks are whole days on from the anchor, and every week ends with its seventh
      day. */
  lemma DailyAndWeeklyBoundaries(anchor: Time, n: nat)
    requires anchor != 0 && n <= MAX_CATCH_UP_CYCLES
    ensures TrafficCycleEnd("daily", anchor, n) == Some(anchor + (n + 1) * NANOS_PER_DAY)
    ensures TrafficCycleEnd("weekly", anchor, n) == Some(anchor + 7 * (n + 1) * NANOS_PER_DAY)
    ensures 7 * n + 6 <= MAX_CATCH_UP_CYCLES ==>
              TrafficCycleEnd("weekly", anchor, n) == TrafficCycleEnd("daily", anchor, 7 * n + 6)
  {
    hide AddDays;
    AddDaysIsWholeDays(anchor, n + 1);
    AddDaysIsWholeDays(anchor, 7 * (n + 1));
    if 7 * n + 6 <= MAX_CATCH_UP_CYCLES { AddDaysIsWholeDays(anchor, 7 * n + 7); }
  }

  /** A monthly boundary keeps the anchor's time of day, and its day of the month in
      every month long enough to have it: clamping in February is not remembered. */
  lemma MonthlyBoundaryRecoversTheAnchorDay(anchor: Time, n: nat)
    requires TrafficCycleEnd("monthly", anchor, n).Some?
    ensures var end := TrafficCycleEnd("monthly", anchor, n).value;
            && MonthIndex(end) == MonthIndex(anchor) + n + 1
            && Clock(end) == Clock(anchor)
            && (Day(end) == Day(anchor) <==> Day(anchor) <= MonthLength(MonthIndex(end)))
  {
    hide AddDays, AddMonthsClamped, MonthIndex, Day, MonthLength;
    AddMonthsLandsInTheMonth(anchor, n + 1);
  }

  // ----- the catch-up walk

  /** Boundary `n` lies at or before now. */
  predicate Passed(cycle: string, anchor: Time, n: nat, now: Time) {
    var end := TrafficCycleEnd(cycle, anchor, n);
    end.Some? && end.value <= now
  }

  /** The answer of the walk, resumed after `elapsed` boundaries. */
  function DueFrom(cycle: string, anchor: Time, count: nat, now: Time, elapsed: nat): (due: nat)
    requires elapsed <= MAX_CATCH_UP_CYCLES
    decreases MAX_CATCH_UP_CYCLES - elapsed
  {
    if elapsed < MAX_CATCH_UP_CYCLES && Passed(cycle, anchor, count + elapsed, now)
    then DueFrom(cycle, anchor, count, now, elapsed + 1)
    else elapsed
  }

  lemma {:induction false} DueFromWalks(cycle: string, anchor: Time, count: nat, now: Time, elapsed: nat)
    requires elapsed <= MAX_CATCH_UP_CYCLES
    ensures var due := DueFrom(cycle, anchor, count, now, elapsed);
            && elapsed <= due <= MAX_CATCH_UP_CYCLES
            && (forall j :: count + elapsed <= j < count + due ==> Passed(cycle, anchor, j, now))
            && (due < MAX_CATCH_UP_CYCLES ==> !Passed(cycle, anchor, count + due, now))
    decreases MAX_CATCH_UP_CYCLES - elapsed
  {
    hide Passed;
    if elapsed < MAX_CATCH_UP_CYCLES && Passed(cycle, anchor, count + elapsed, now) {
      DueFromWalks(cycle, anchor, count, now, elapsed + 1);
    }
  }

  function Due(cycle: string, anchor: Time, count: nat, now: Time): nat {
    DueFrom(cycle, anchor, count, now, 0)
  }

  method DueTrafficResets(cycle: string, anchor: Time, count: nat, now: Time) returns (elapsed: nat)
    ensures elapsed == Due(cycle, anchor, count, now)
  {
    hide TrafficCycleEnd;
    elapsed := 0;
    while elapsed < MAX_CATCH_UP_CYCLES
      invariant elapsed <= MAX_CATCH_UP_CYCLES
      invariant DueFrom(cycle, anchor, count, now, elapsed) == Due(cycle, anchor, count, now)
    {
      var end := TrafficCycleEnd(cycle, anchor, count + elapsed);
      if end.None? || now < end.value { break; }
      elapsed := elapsed + 1;
    }
  }

  /** The walk stops at the first boundary that has not passed, and nothing behind it
      is unpassed; only the bound can stop it sooner. */
  lemma DueIsTheFirstUnpassed(cycle: string, anchor: Time, count: nat, now: Time, k: nat)
    requires k < MAX_CATCH_UP_CYCLES
    ensures Due(cycle, anchor, count, now) == k <==>
            && !Passed(cycle, anchor, count + k, now)
            && forall j :: count <= j < count + k ==> Passed(cycle, anchor, j, now)
  {
    hide Passed;
    DueFromWalks(cycle, anchor, count, now, 0);
    var due := Due(cycle, anchor, count, now);
    if due < k { assert !Passed(cycle, anchor, count + due, now); }
    if due > k { assert Passed(cycle, anchor, count + k, now); }
  }

  /** Passed boundaries are an initial stretch. */
  lemma PassedIsInitial(cycle: string, anchor: Time, m: nat, n: nat, now: Time)
    requires m <= n && Passed(cycle, anchor, n, now)
    ensures Passed(cycle, anchor, m, now)
  {
    hide TrafficCycleEnd;
    if m < n { BoundariesIncrease(cycle, anchor, m, n); }
  }

  // ----- what a sweep decides for one account

  datatype Schedule = Schedule(cycle: string, anchor: Time, count: nat)

  datatype Verdict = Leave | Reanchor | RollOver(count: nat)

  function Decide(s: Schedule, now: Time): Verdict {
    var cycle := NormalizeTrafficCycle(s.cycle);
    if cycle.None? || cycle.value == "" then Leave
    else if s.anchor == 0 then Reanchor
    else
      var elapsed := Due(cycle.value, s.anchor, s.count, now);
      if elapsed == 0 then Leave
      else
        var end := TrafficCycleEnd(cycle.value, s.anchor, s.count + elapsed);
        if end.None? || end.value <= now then Reanchor
        else RollOver(s.count + elapsed)
  }

  /** The schedule a sweep leaves behind when its write succeeds. */
  function Advance(s: Schedule, now: Time): Schedule {
    match Decide(s, now)
    case Leave => s
    case Reanchor => s.(anchor := now, count := 0)
    case RollOver(n) => s.(count := n)
  }

  function NextTrafficReset(s: Schedule): Option<Time> {
    var cycle := NormalizeTrafficCycle(s.cycle);
    if cycle.None? || cycle.value == "" then None
    else TrafficCycleEnd(cycle.value, s.anchor, s.count)
  }

  /** The cycle names a sweep acts on. */
  predicate Valid(s: Schedule) {
    var cycle := NormalizeTrafficCycle(s.cycle);
    cycle.Some? && cycle.value != ""
  }

  /** Boundary n of a schedule has passed. */
  predicate PassedAt(s: Schedule, n: nat, now: Time)
    requires Valid(s)
  {
    Passed(NormalizeTrafficCycle(s.cycle).value, s.anchor, n, now)
  }

  lemma PassedAtFacts(s: Schedule, now: Time)
    requires Valid(s)
    ensures forall n: nat :: PassedAt(s, n, now) ==> n <= MAX_CATCH_UP_CYCLES
    ensures forall m: nat, n: nat :: m <= n && PassedAt(s, n, now) ==> PassedAt(s, m, now)
  {
    hide NormalizeTrafficCycle, TrafficCycleEnd;
    var cycle := NormalizeTrafficCycle(s.cycle).value;
    forall n: nat | PassedAt(s, n, now) ensures n <= MAX_CATCH_UP_CYCLES {
      BoundaryExists(cycle, s.anchor, n);
    }
    forall m: nat, n: nat | m <= n && PassedAt(s, n, now) ensures PassedAt(s, m, now) {
      PassedIsInitial(cycle, s.anchor, m, n, now);
    }
  }

  lemma PassingIsForever(s: Schedule, n: nat, t1: Time, t2: Time)
    requires Valid(s) && t1 <= t2 && PassedAt(s, n, t1)
    ensures PassedAt(s, n, t2)
  {
    hide NormalizeTrafficCycle, TrafficCycleEnd;
  }

  /** The walk, its bound and the check after it amount to three questions about single
      boundaries: the account is left alone exactly while its own boundary is ahead,
      re-anchored exactly when even the last boundary the walk may reach has passed, and
      otherwise credited up to the first boundary still ahead. */
  lemma DecideByBoundaries(s: Schedule, now: Time)
    requires Valid(s) && s.anchor != 0
    ensures Decide(s, now) == Leave <==> !PassedAt(s, s.count, now)
    ensures Decide(s, now) == Reanchor <==>
            s.count <= MAX_CATCH_UP_CYCLES && PassedAt(s, MAX_CATCH_UP_CYCLES, now)
    ensures Decide(s, now).RollOver? ==>
              var n := Decide(s, now).count;
              s.count < n <= MAX_CATCH_UP_CYCLES && PassedAt(s, n - 1, now) && !PassedAt(s, n, now)
  {
    hide NormalizeTrafficCycle, TrafficCycleEnd, DueFrom, Passed;
    var cycle := NormalizeTrafficCycle(s.cycle).value;
    var due := Due(cycle, s.anchor, s.count, now);
    DueFromWalks(cycle, s.anchor, s.count, now, 0);
    PassedAtFacts(s, now);
    CheckAfterTheWalk(s, s.count + due, now);
    if due > 0 { assert Passed(cycle, s.anchor, s.count + due - 1, now); }
  }

  /** The account has a cycle but no origin the walk can start from. */
  predicate NeedsAnchor(s: Schedule, now: Time) {
    Valid(s) && (s.anchor == 0 || (s.count <= MAX_CATCH_UP_CYCLES && PassedAt(s, MAX_CATCH_UP_CYCLES, now)))
  }

  /** The account's own boundary has passed. */
  predicate BoundaryPassed(s: Schedule, now: Time) {
    Valid(s) && s.anchor != 0 && PassedAt(s, s.count, now)
  }

  lemma VerdictByBoundaries(s: Schedule, now: Time)
    ensures Decide(s, now) == Reanchor <==> NeedsAnchor(s, now)
    ensures Decide(s, now).RollOver? <==> BoundaryPassed(s, now) && !PassedAt(s, MAX_CATCH_UP_CYCLES, now)
  {
    hide NormalizeTrafficCycle, Due, TrafficCycleEnd, PassedAt;
    if Valid(s) && s.anchor != 0 {
      DecideByBoundaries(s, now);
      PassedAtFacts(s, now);
    }
  }

  /** The re-check in applyTrafficCycles asks whether the next boundary is ahead. */
  lemma CheckAfterTheWalk(s: Schedule, n: nat, now: Time)
    requires Valid(s) && s.anchor != 0
    ensures var end := TrafficCycleEnd(NormalizeTrafficCycle(s.cycle).value, s.anchor, n);
            (end.None? || end.value <= now) <==> (n > MAX_CATCH_UP_CYCLES || PassedAt(s, n, now))
  {
    hide NormalizeTrafficCycle, TrafficCycleEnd;
    var cycle := NormalizeTrafficCycle(s.cycle).value;
    BoundaryExists(cycle, s.anchor, n);
    ValidCyclesRecur(s);
  }

  lemma ValidCyclesRecur(s: Schedule)
    requires Valid(s)
    ensures Recurs(NormalizeTrafficCycle(s.cycle).value)
  {
    hide TrimSpace, ToLower;
  }

  /** The next reset lies strictly ahead. */
  predicate OnCurrentPeriod(s: Schedule, now: Time) {
    var next := NextTrafficReset(s);
    next.Some? && now < next.value
  }

  lemma OnCurrentPeriodMeans(s: Schedule, now: Time)
    requires Valid(s) && s.anchor != 0
    ensures OnCurrentPeriod(s, now) <==> s.count <= MAX_CATCH_UP_CYCLES && !PassedAt(s, s.count, now)
  {
    hide NormalizeTrafficCycle, TrafficCycleEnd, PassedAt;
    CheckAfterTheWalk(s, s.count, now);
  }

  /** A freshly anchored account is on its first period. */
  lemma FreshAnchorIsCurrent(s: Schedule, now: Time)
    requires Valid(s) && now != 0 && s.anchor == now && s.count == 0
    ensures !PassedAt(s, 0, now)
  {
    hide NormalizeTrafficCycle, TrafficCycleEnd;
    var cycle := NormalizeTrafficCycle(s.cycle).value;
    BoundaryExists(cycle, now, 1);
    ValidCyclesRecur(s);
    BoundariesIncrease(cycle, now, 0, 1);
  }

  /** After a sweep every account with a recurring cycle is on the period that contains
      now, exactly if its stored count was one a sweep can have written. */
  lemma SweepCatchesUp(s: Schedule, now: Time)
    requires Valid(s) && now != 0
    ensures OnCurrentPeriod(Advance(s, now), now) <==> s.anchor == 0 || s.count <= MAX_CATCH_UP_CYCLES
    ensures s.count <= MAX_CATCH_UP_CYCLES ==> Advance(s, now).count <= MAX_CATCH_UP_CYCLES
  {
    hide NormalizeTrafficCycle, Due, TrafficCycleEnd, PassedAt, OnCurrentPeriod;
    var r := Advance(s, now);
    if s.anchor != 0 { DecideByBoundaries(s, now); }
    if r.anchor != 0 { OnCurrentPeriodMeans(r, now); }
    if Decide(s, now) == Reanchor {
      FreshAnchorIsCurrent(r, now);
    } else if Decide(s, now).RollOver? {
      SameBoundaries(s, r, r.count, now);
    } else {
      PassedAtFacts(s, now);
    }
  }

  /** Boundaries depend on the cycle and the anchor only. */
  lemma SameBoundaries(s: Schedule, r: Schedule, n: nat, now: Time)
    requires Valid(s) && s.cycle == r.cycle && s.anchor == r.anchor
    ensures Valid(r) && (PassedAt(s, n, now) <==> PassedAt(r, n, now))
  {
    hide NormalizeTrafficCycle, TrafficCycleEnd;
  }

  /** A second sweep at the same instant finds nothing to do. */
  lemma SweepSettles(s: Schedule, now: Time)
    requires now != 0
    ensures Decide(Advance(s, now), now) == Leave
  {
    hide NormalizeTrafficCycle, Due, TrafficCycleEnd, PassedAt;
    var r := Advance(s, now);
    if Valid(s) {
      if s.anchor != 0 { DecideByBoundaries(s, now); }
      if r.anchor != 0 { DecideByBoundaries(r, now); }
      if Decide(s, now) == Reanchor {
        FreshAnchorIsCurrent(r, now);
      } else {
        SameBoundaries(s, r, r.count, now);
      }
    }
  }

  /** Nothing is reset early: a roll-over happens only once the account's own boundary
      has passed, and credits only boundaries that have passed. */
  lemma RollOverIsEarned(s: Schedule, now: Time, n: nat)
    requires Decide(s, now) == RollOver(n)
    ensures Valid(s) && s.anchor != 0
    ensures forall j: nat :: s.count <= j < n ==> PassedAt(s, j, now)
    ensures s.count < n && !PassedAt(s, n, now)
  {
    hide NormalizeTrafficCycle, Due, TrafficCycleEnd, PassedAt;
    assert Valid(s) && s.anchor != 0;
    DecideByBoundaries(s, now);
    PassedAtFacts(s, now);
  }

  /** Downtime does not matter: sweeping at t1 and again at t2 leaves the schedule that a
      single sweep at t2 leaves, unless t1 found the account without a usable origin and
      gave it one that t2 still finds usable. */
  lemma DowntimeDoesNotMatter(s: Schedule, t1: Time, t2: Time)
    requires 0 < t1 <= t2
    ensures Advance(Advance(s, t1), t2) == Advance(s, t2) <==>
            (NeedsAnchor(s, t1) && t1 < t2 ==> PassedAt(s.(anchor := t1, count := 0), MAX_CATCH_UP_CYCLES, t2))
  {
    hide NormalizeTrafficCycle, Due, TrafficCycleEnd, PassedAt;
    var r := Advance(s, t1);
    VerdictByBoundaries(s, t1);
    VerdictByBoundaries(r, t2);
    if Valid(s) && s.anchor != 0 {
      DecideByBoundaries(s, t1);
      DecideByBoundaries(s, t2);
      match Decide(s, t1)
      case Leave =>
      case Reanchor => PassingIsForever(s, MAX_CATCH_UP_CYCLES, t1, t2);
      case RollOver(n) =>
        PassedAtFacts(s, t2);
        PassingIsForever(s, n - 1, t1, t2);
        CatchUpFromACreditedCount(s, r, t2);
    }
    if Decide(s, t1) == Reanchor && t1 == t2 { SweepSettles(s, t1); }
  }

  lemma CatchUpFromACreditedCount(s: Schedule, r: Schedule, now: Time)
    requires Valid(s) && s.anchor != 0
    requires r == s.(count := r.count) && s.count < r.count <= MAX_CATCH_UP_CYCLES
    requires PassedAt(s, r.count - 1, now)
    ensures Advance(r, now) == Advance(s, now)
  {
    hide NormalizeTrafficCycle, Due, TrafficCycleEnd, PassedAt;
    assert Valid(r);
    forall n: nat ensures PassedAt(s, n, now) <==> PassedAt(r, n, now) { SameBoundaries(s, r, n, now); }
    DecideByBoundaries(s, now);
    DecideByBoundaries(r, now);
    PassedAtFacts(s, now);
  }
}
