/** Date arithmetic used by the habit tracker.

    An instant is a whole number of seconds of local time counted from
    1970-01-01 00:00; a calendar day is the number of days counted from
    1970-01-01 (day 0). Months are counted from January of year 0 in the
    proleptic Gregorian calendar. Weekdays follow the calendar's
    numbering: 1 is Sunday, 7 is Saturday. */
module Dates {

  type Instant = int
  type DayNumber = int
  /** Month index `m` is month `m % 12 + 1` of year `m / 12`. */
  type MonthIndex = int
  type WeekdayNumber = w: int | 1 <= w <= 7 witness 1

  const SecondsPerDay: int := 86400

  /** The calendar day an instant falls on (its start of day, in days). */
  function Day(t: Instant): (d: DayNumber)
    ensures d * SecondsPerDay <= t < d * SecondsPerDay + SecondsPerDay
  {
    t / SecondsPerDay
  }

  /** Two instants fall on the same calendar day. */
  predicate SameDay(a: Instant, b: Instant)
  {
    Day(a) == Day(b)
  }

  /** The instant `t` is on the same day as `now`. */
  predicate IsDateInToday(t: Instant, now: Instant)
  {
    SameDay(t, now)
  }

  /** Moves an instant by `n` whole days, keeping its time of day. */
  function AddDays(t: Instant, n: int): (r: Instant)
    ensures Day(r) == Day(t) + n
    ensures r - Day(r) * SecondsPerDay == t - Day(t) * SecondsPerDay
  {
    var r := t + n * SecondsPerDay;
    DayShift(t, n);
    r
  }

  lemma DayShift(t: Instant, n: int)
    ensures Day(t + n * SecondsPerDay) == Day(t) + n
  {
    var d := Day(t);
    assert (d + n) * SecondsPerDay <= t + n * SecondsPerDay < (d + n) * SecondsPerDay + SecondsPerDay;
    DayUnique(t + n * SecondsPerDay, d + n);
  }

  /** The day of an instant is the only day whose span contains it. */
  lemma DayUnique(t: Instant, d: DayNumber)
    requires d * SecondsPerDay <= t < d * SecondsPerDay + SecondsPerDay
    ensures Day(t) == d
  {
  }

  datatype ComparisonResult = OrderedAscending | OrderedSame | OrderedDescending

  /** Compares two instants at day granularity. */
  function CompareByDay(a: Instant, b: Instant): (r: ComparisonResult)
    ensures r == OrderedAscending <==> Day(a) < Day(b)
    ensures r == OrderedSame <==> SameDay(a, b)
    ensures r == OrderedDescending <==> Day(a) > Day(b)
  {
    if Day(a) < Day(b) then OrderedAscending
    else if Day(a) == Day(b) then OrderedSame
    else OrderedDescending
  }

  // ---------------------------------------------------------------------
  // Months and weekdays

  function YearOf(m: MonthIndex): int
  {
    m / 12
  }

  function MonthOf(m: MonthIndex): (mo: int)
    ensures 1 <= mo <= 12
  {
    m % 12 + 1
  }

  predicate IsLeapYear(y: int)
  {
    y % 4 == 0 && (y % 100 != 0 || y % 400 == 0)
  }

  /** Number of days in month `mo` (1..12) of year `y`. */
  function MonthLength(y: int, mo: int): (n: int)
    requires 1 <= mo <= 12
    ensures 28 <= n <= 31
    ensures n == 29 <==> mo == 2 && IsLeapYear(y)
  {
    if mo == 2 then (if IsLeapYear(y) then 29 else 28)
    else if mo == 4 || mo == 6 || mo == 9 || mo == 11 then 30
    else 31
  }

  /** Days of year `y` before the first of month `mo`. */
  function DaysBeforeMonth(y: int, mo: int): (n: int)
    requires 1 <= mo <= 12
    ensures 0 <= n <= 335
  {
    var leap := if IsLeapYear(y) then 1 else 0;
    match mo
    case 1 => 0
    case 2 => 31
    case 3 => 59 + leap
    case 4 => 90 + leap
    case 5 => 120 + leap
    case 6 => 151 + leap
    case 7 => 181 + leap
    case 8 => 212 + leap
    case 9 => 243 + leap
    case 10 => 273 + leap
    case 11 => 304 + leap
    case _ => 334 + leap
  }

  /** Leap years among the years before `y`, counted from year 0. */
  function LeapYearsBefore(y: int): int
  {
    (y + 3) / 4 - (y + 99) / 100 + (y + 399) / 400
  }

  lemma LeapYearsStep(y: int)
    ensures LeapYearsBefore(y + 1) == LeapYearsBefore(y) + (if IsLeapYear(y) then 1 else 0)
  {
    DivStep(y, 4);
    DivStep(y, 100);
    DivStep(y, 400);
    if y % 400 == 0 {
      DividesFactor(y, 4, 100);
      DividesFactor(y, 100, 4);
    } else if y % 100 == 0 {
      DividesFactor(y, 4, 25);
    }
  }

  /** Euclidean division is determined by quotient and remainder. */
  lemma DivModUnique(a: int, k: int, q: int, r: int)
    requires k > 0 && a == k * q + r && 0 <= r < k
    ensures a / k == q && a % k == r
  {
    var q', r' := a / k, a % k;
    assert a == k * q' + r';
    GapAtLeast(k, q, q');
    GapAtLeast(k, q', q);
  }

  /** Distinct multiples of `k` are at least `k` apart. */
  lemma GapAtLeast(k: int, a: int, b: int)
    requires k > 0
    ensures a > b ==> k * a - k * b >= k
  {
    if a > b {
      MulAtLeast(k, a - b);
      assert k * (a - b) == k * a - k * b;
    }
  }

  /** A positive multiple of `k` is at least `k`. */
  lemma {:induction false} MulAtLeast(k: int, d: int)
    requires k > 0 && d >= 1
    ensures k * d >= k
    decreases d
  {
    if d > 1 {
      MulAtLeast(k, d - 1);
      assert k * d == k * (d - 1) + k;
    }
  }

  /** Counting multiples of `k` up to `y + k` rather than `y + k - 1` adds
      one exactly when `y` is a multiple of `k`. */
  lemma DivStep(y: int, k: int)
    requires k > 0
    ensures (y + k) / k - (y + k - 1) / k == (if y % k == 0 then 1 else 0)
  {
    var q, r := y / k, y % k;
    DivModUnique(y + k, k, q + 1, r);
    if r == 0 {
      DivModUnique(y + k - 1, k, q, k - 1);
    } else {
      DivModUnique(y + k - 1, k, q + 1, r - 1);
    }
  }

  /** A multiple of `k * m` is a multiple of `k`. */
  lemma DividesFactor(y: int, k: int, m: int)
    requires k > 0 && m > 0 && y % (k * m) == 0
    ensures y % k == 0
  {
    var q := y / (k * m);
    assert y == (k * m) * q;
    assert y == k * (m * q) + 0;
    DivModUnique(y, k, m * q, 0);
  }

  /** Days from year 0 to 1970-01-01. */
  const EpochOffset: int := 719528

  /** The day number of January 1st of year `y`. */
  function YearStart(y: int): DayNumber
  {
    365 * y + LeapYearsBefore(y) - EpochOffset
  }

  /** The day number of the first day of month `m`. */
  function MonthStart(m: MonthIndex): DayNumber
  {
    YearStart(YearOf(m)) + DaysBeforeMonth(YearOf(m), MonthOf(m))
  }

  /** The number of days in month `m`. */
  function DaysIn(m: MonthIndex): (n: int)
    ensures 28 <= n <= 31
  {
    MonthLength(YearOf(m), MonthOf(m))
  }

  /** Consecutive months tile the day line: each month starts where the
      previous one ends. */
  lemma {:induction false} MonthStartNext(m: MonthIndex)
    ensures MonthStart(m + 1) == MonthStart(m) + DaysIn(m)
  {
    var y := YearOf(m);
    if m % 12 == 11 {
      assert YearOf(m + 1) == y + 1 && MonthOf(m + 1) == 1;
      LeapYearsStep(y);
    } else {
      assert YearOf(m + 1) == y && MonthOf(m + 1) == MonthOf(m) + 1;
    }
  }

  /** The month that contains calendar day `d`. */
  predicate InMonth(d: DayNumber, m: MonthIndex)
  {
    MonthStart(m) <= d < MonthStart(m + 1)
  }

  /** The weekday of a calendar day (1970-01-01 was a Thursday, weekday 5). */
  function Weekday(d: DayNumber): WeekdayNumber
  {
    (d + 4) % 7 + 1
  }

  /** The weekday moves by `n` places, cyclically, when the day moves by `n`. */
  lemma WeekdayShift(d: DayNumber, n: int)
    ensures Weekday(d + n) - 1 == (Weekday(d) - 1 + n) % 7
  {
    var a := d + 4;
    var q := a / 7;
    assert a == 7 * q + a % 7;
    ModShift(q, a % 7 + n);
  }

  lemma ModShift(k: int, x: int)
    ensures (7 * k + x) % 7 == x % 7
  {
    var q := x / 7;
    assert 7 * k + x == 7 * (k + q) + x % 7;
  }
}
