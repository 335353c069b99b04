/** The proleptic Gregorian calendar as Go's time package computes with it, in UTC.

    An instant is a count of nanoseconds since 0001-01-01T00:00:00Z, so Go's zero
    time.Time is the instant 0. A month is numbered by `12 * year + (month - 1)`, which
    is how addMonthsClamped counts them; a month within a year is numbered from 0. */
module Calendar {
  import opened Prelude

  const NANOS_PER_SECOND: int := 1_000_000_000
  const NANOS_PER_DAY: int := 24 * 60 * 60 * NANOS_PER_SECOND

  predicate IsLeap(y: int) {
    y % 4 == 0 && (y % 100 != 0 || y % 400 == 0)
  }

  /** The month lengths everybody learns, for month k. */
  function MonthLength(k: int): (n: int)
    ensures 28 <= n <= 31
  {
    var m := k % 12;
    if m == 1 then (if IsLeap(k / 12) then 29 else 28)
    else if m == 3 || m == 5 || m == 8 || m == 10 then 30
    else 31
  }

  const FIRST_MONTH := 12

  /** Days from 0001-01-01 to the first of month k: the months between, added up. */
  function MonthStart(k: int): int
    decreases if k >= FIRST_MONTH then k - FIRST_MONTH else FIRST_MONTH - k
  {
    if k == FIRST_MONTH then 0
    else if k > FIRST_MONTH then MonthStart(k - 1) + MonthLength(k - 1)
    else MonthStart(k + 1) - MonthLength(k)
  }

  lemma MonthStartStep(k: int)
    ensures MonthStart(k + 1) == MonthStart(k) + MonthLength(k)
  {
  }

  lemma {:induction false} MonthStartIncreases(j: int, k: int)
    requires j < k
    ensures MonthStart(j) + 28 * (k - j) <= MonthStart(k)
    decreases k - j
  {
    hide MonthStart;
    MonthStartStep(k - 1);
    if j < k - 1 { MonthStartIncreases(j, k - 1); }
  }

  /** A month no later than the one day n falls in. */
  function EarlyMonth(n: int): (k: int)
    ensures MonthStart(k) <= n
  {
    hide MonthStart;
    var k := FIRST_MONTH + (if n >= 0 then n / 31 else n / 28);
    MonthStartBounds(k);
    k
  }

  lemma {:induction false} MonthStartBounds(k: int)
    ensures k >= FIRST_MONTH ==> MonthStart(k) <= 31 * (k - FIRST_MONTH)
    ensures k <= FIRST_MONTH ==> MonthStart(k) <= 28 * (k - FIRST_MONTH)
    decreases if k >= FIRST_MONTH then k - FIRST_MONTH else FIRST_MONTH - k
  {
    if k > FIRST_MONTH { MonthStartBounds(k - 1); }
    if k < FIRST_MONTH { MonthStartBounds(k + 1); }
  }

  function MonthFrom(n: int, k: int): (r: int)
    requires MonthStart(k) <= n
    ensures MonthStart(r) <= n < MonthStart(r + 1)
    decreases n - MonthStart(k)
  {
    hide MonthStart, MonthLength;
    MonthStartStep(k);
    if n < MonthStart(k + 1) then k else MonthFrom(n, k + 1)
  }

  /** The month day n falls in. */
  function MonthOf(n: int): (k: int)
    ensures MonthStart(k) <= n < MonthStart(k + 1)
  {
    MonthFrom(n, EarlyMonth(n))
  }

  lemma MonthOfIsUnique(n: int, k: int)
    requires MonthStart(k) <= n < MonthStart(k + 1)
    ensures MonthOf(n) == k
  {
    hide MonthStart, MonthLength;
    var r := MonthOf(n);
    if r < k {
      if r + 1 < k { MonthStartIncreases(r + 1, k); }
    } else if k < r {
      if k + 1 < r { MonthStartIncreases(k + 1, r); }
    }
  }

  // ----- what time.Time reports about an instant

  function DayNumber(t: Time): int { t / NANOS_PER_DAY }

  function Clock(t: Time): (c: int)
    ensures 0 <= c < NANOS_PER_DAY
  { t % NANOS_PER_DAY }

  /** Year and month of an instant as one month number. */
  function MonthIndex(t: Time): int { MonthOf(DayNumber(t)) }

  /** Day of the month, from 1. */
  function Day(t: Time): (d: int)
    ensures 1 <= d <= MonthLength(MonthIndex(t))
  {
    MonthStartStep(MonthIndex(t));
    DayNumber(t) - MonthStart(MonthIndex(t)) + 1
  }

  /** time.Date: months and days outside their usual range carry over. */
  function Date(year: int, month: int, day: int, clock: int): Time {
    (MonthStart(12 * year + month - 1) + day - 1) * NANOS_PER_DAY + clock
  }

  /** An instant is exactly its month, its day and its time of day. */
  lemma InstantIsItsDate(t: Time)
    ensures t == (MonthStart(MonthIndex(t)) + Day(t) - 1) * NANOS_PER_DAY + Clock(t)
  {
    hide MonthStart, MonthLength;
  }

  lemma DateReadsBack(k: int, day: int, clock: int)
    requires 1 <= day <= MonthLength(k)
    requires 0 <= clock < NANOS_PER_DAY
    ensures var t := (MonthStart(k) + day - 1) * NANOS_PER_DAY + clock;
            MonthIndex(t) == k && Day(t) == day && Clock(t) == clock
  {
    hide MonthStart, MonthLength;
    var n := MonthStart(k) + day - 1;
    var t := n * NANOS_PER_DAY + clock;
    assert DayNumber(t) == n && Clock(t) == clock;
    MonthStartStep(k);
    MonthOfIsUnique(n, k);
  }

  // ----- the calendar against a formula that knows no month lengths

  /** The day number of the first of a month, in closed form: years are counted from March, so
      that the leap day comes last, and five months from March have 153 days. */
  function FirstOfMonth(k: int): int {
    DaysToMarch(if k % 12 < 2 then k / 12 - 1 else k / 12) + DaysFromMarch(k % 12) - 306
  }

  function DaysToMarch(y: int): int { 365 * y + y / 4 - y / 100 + y / 400 }

  function DaysFromMarch(month: int): int { (153 * ((month + 10) % 12) + 2) / 5 }

  lemma NextFirstOfMonth(k: int)
    ensures FirstOfMonth(k + 1) == FirstOfMonth(k) + MonthLength(k)
  {
    hide DaysToMarch, DaysFromMarch;
    NextMonth(k);
    MonthsFromMarch(k % 12);
    YearsToMarch(k / 12);
  }

  lemma NextMonth(k: int)
    ensures if k % 12 == 11 then (k + 1) / 12 == k / 12 + 1 && (k + 1) % 12 == 0
            else (k + 1) / 12 == k / 12 && (k + 1) % 12 == k % 12 + 1
  {
  }

  lemma MonthsFromMarch(m: int)
    requires 0 <= m < 12
    ensures DaysFromMarch(if m == 11 then 0 else m + 1) - DaysFromMarch(m) ==
            if m == 1 then -337 else if m == 3 || m == 5 || m == 8 || m == 10 then 30 else 31
  {
  }

  lemma YearsToMarch(y: int)
    ensures DaysToMarch(y) - DaysToMarch(y - 1) == if y % 4 == 0 && (y % 100 != 0 || y % 400 == 0) then 366 else 365
  {
    assert y / 4 - (y - 1) / 4 == if y % 4 == 0 then 1 else 0;
    assert y / 100 - (y - 1) / 100 == if y % 100 == 0 then 1 else 0;
    assert y / 400 - (y - 1) / 400 == if y % 400 == 0 then 1 else 0;
  }

  lemma {:induction false} MonthStartIsFirstOfMonth(k: int)
    ensures MonthStart(k) == FirstOfMonth(k)
    decreases if k >= FIRST_MONTH then k - FIRST_MONTH else FIRST_MONTH - k
  {
    hide MonthLength, FirstOfMonth;
    if k > FIRST_MONTH {
      MonthStartIsFirstOfMonth(k - 1);
      NextFirstOfMonth(k - 1);
      MonthStartStep(k - 1);
    } else if k < FIRST_MONTH {
      MonthStartIsFirstOfMonth(k + 1);
      NextFirstOfMonth(k);
      MonthStartStep(k);
    } else {
      TheFirstMonth();
    }
  }

  lemma TheFirstMonth()
    ensures FirstOfMonth(FIRST_MONTH) == 0 == MonthStart(FIRST_MONTH)
  {
  }

  lemma FirstOfYear(y: int)
    ensures MonthStart(12 * y) == DaysToMarch(y - 1)
  {
    hide MonthStart, DaysToMarch;
    MonthStartIsFirstOfMonth(12 * y);
    assert 12 * y / 12 == y && 12 * y % 12 == 0;
  }

  /** For every year, past or to come: a year has 366 days if 4 divides it and 100 does not or
      400 does, else 365; four centuries have 146097; and the Unix epoch is where it should be. */
  lemma GregorianCycle(y: int)
    ensures MonthStart(12 * (y + 1)) - MonthStart(12 * y) ==
            if y % 4 == 0 && (y % 100 != 0 || y % 400 == 0) then 366 else 365
    ensures MonthStart(12 * (y + 400)) - MonthStart(12 * y) == 146_097
    ensures MonthStart(12 * 1970) == 719_162
  {
    hide MonthStart, DaysToMarch;
    FirstOfYear(y);
    FirstOfYear(y + 1);
    FirstOfYear(y + 400);
    FirstOfYear(1970);
    YearsToMarch(y);
    FourCenturies(y - 1);
  }

  lemma FourCenturies(y: int)
    ensures DaysToMarch(y + 400) - DaysToMarch(y) == 146_097
    ensures DaysToMarch(1969) == 719_162
  {
  }

  // ----- the arithmetic in traffic_cycle.go

  /** Day zero of the following month. `month` runs from 1 to 12. */
  function DaysInMonth(year: int, month: int): int {
    Day(Date(year, month + 1, 0, 0))
  }

  lemma DaysInMonthIsTheMonthLength(year: int, month: int)
    requires 1 <= month <= 12
    ensures DaysInMonth(year, month) == MonthLength(12 * year + month - 1)
  {
    hide MonthStart, MonthLength;
    var k := 12 * year + month - 1;
    MonthStartStep(k);
    DateReadsBack(k, MonthLength(k), 0);
    assert Date(year, month + 1, 0, 0) == (MonthStart(k) + MonthLength(k) - 1) * NANOS_PER_DAY;
  }

  /** Go's integer division and remainder truncate toward zero. */
  function GoDiv(a: int, b: int): int
    requires b > 0
  { if a >= 0 then a / b else -((-a) / b) }

  function GoMod(a: int, b: int): int
    requires b > 0
  { a - b * GoDiv(a, b) }

  /** The remainder takes the sign of the dividend, as truncation has it. */
  lemma GoDivTruncates(a: int, b: int)
    requires b > 0
    ensures a == b * GoDiv(a, b) + GoMod(a, b) && -b < GoMod(a, b) < b
    ensures (a >= 0 ==> GoMod(a, b) >= 0) && (a <= 0 ==> GoMod(a, b) <= 0)
  {
  }

  /** time.Time.AddDate(0, 0, days). */
  function AddDays(t: Time, days: int): Time {
    var k := MonthIndex(t);
    Date(k / 12, k % 12 + 1, Day(t) + days, Clock(t))
  }

  lemma AddDaysIsWholeDays(t: Time, days: int)
    ensures AddDays(t, days) == t + days * NANOS_PER_DAY
  {
    hide MonthStart, MonthLength, MonthOf;
    InstantIsItsDate(t);
  }

  function AddMonthsClamped(t: Time, months: int): Time {
    var year, month, day := MonthIndex(t) / 12, MonthIndex(t) % 12 + 1, Day(t);
    var total := month - 1 + months;
    var q, r := GoDiv(total, 12), GoMod(total, 12);
    var targetYear := if r < 0 then year + q - 1 else year + q;
    var targetMonth := if r < 0 then r + 12 else r;
    var last := DaysInMonth(targetYear, targetMonth + 1);
    Date(targetYear, targetMonth + 1, if day > last then last else day, Clock(t))
  }

  function Min(a: int, b: int): int { if a <= b then a else b }

  /** Adding months moves the month by exactly that many, keeps the time of day, and
      keeps the day where the target month has it and its last day where it does not. */
  lemma AddMonthsLandsInTheMonth(t: Time, months: int)
    ensures var r := AddMonthsClamped(t, months);
            && MonthIndex(r) == MonthIndex(t) + months
            && Day(r) == Min(Day(t), MonthLength(MonthIndex(t) + months))
            && Clock(r) == Clock(t)
  {
    hide MonthStart, MonthLength, MonthOf, DaysInMonth;
    var k := MonthIndex(t);
    var total := k % 12 + months;
    var q, r := GoDiv(total, 12), GoMod(total, 12);
    var targetYear := if r < 0 then k / 12 + q - 1 else k / 12 + q;
    var targetMonth := if r < 0 then r + 12 else r;
    assert 0 <= targetMonth < 12;
    assert 12 * targetYear + targetMonth == k + months;
    DaysInMonthIsTheMonthLength(targetYear, targetMonth + 1);
    DateReadsBack(k + months, Min(Day(t), MonthLength(k + months)), Clock(t));
  }

  /** Instants in a later month are later. */
  lemma LaterMonthIsLater(a: Time, b: Time)
    requires MonthIndex(a) < MonthIndex(b)
    ensures a < b
  {
    hide MonthStart, MonthLength, MonthOf;
    if MonthIndex(a) + 1 < MonthIndex(b) { MonthStartIncreases(MonthIndex(a) + 1, MonthIndex(b)); }
    assert DayNumber(a) < DayNumber(b);
  }

  /** Boundaries measured from one anchor strictly increase, in either direction. */
  lemma AddMonthsIncreases(t: Time, a: int, b: int)
    requires a < b
    ensures AddMonthsClamped(t, a) < AddMonthsClamped(t, b)
  {
    hide AddMonthsClamped, MonthIndex, Day, MonthStart, MonthLength;
    AddMonthsLandsInTheMonth(t, a);
    AddMonthsLandsInTheMonth(t, b);
    LaterMonthIsLater(AddMonthsClamped(t, a), AddMonthsClamped(t, b));
  }

  lemma AddNoMonths(t: Time)
    ensures AddMonthsClamped(t, 0) == t
  {
    hide AddMonthsClamped, MonthIndex, Day, MonthStart, MonthLength;
    AddMonthsLandsInTheMonth(t, 0);
    InstantIsItsDate(t);
    InstantIsItsDate(AddMonthsClamped(t, 0));
  }

  /** Measuring every boundary from the anchor, as trafficCycleEnd does, never ends up
      earlier than stepping from boundary to boundary, and the two agree exactly when
      the intermediate month does not clip a day the final month still has. */
  lemma ChainedClampingOnlyLosesDays(t: Time, a: int, b: int)
    ensures var chained := AddMonthsClamped(AddMonthsClamped(t, a), b);
            var direct := AddMonthsClamped(t, a + b);
            var k := MonthIndex(t);
            && chained <= direct
            && MonthIndex(chained) == MonthIndex(direct)
            && (chained == direct <==> Min(Day(t), MonthLength(k + a + b)) <= MonthLength(k + a))
  {
    hide AddMonthsClamped, MonthIndex, Day, MonthStart, MonthLength;
    var mid := AddMonthsClamped(t, a);
    AddMonthsLandsInTheMonth(t, a);
    AddMonthsLandsInTheMonth(mid, b);
    AddMonthsLandsInTheMonth(t, a + b);
    InstantIsItsDate(AddMonthsClamped(mid, b));
    InstantIsItsDate(AddMonthsClamped(t, a + b));
  }
}
