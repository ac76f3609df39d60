/** The proleptic Gregorian calendar of Python's `datetime.date`: valid dates
    are years 1..9999, the ordinal of 0001-01-01 is 1, dates compare as the
    tuple (year, month, day), and adding days moves the ordinal. */
module Calendar {
  import opened Wrappers

  datatype CivilDate = CivilDate(year: int, month: int, day: int)

  const MinYear: int := 1
  const MaxYear: int := 9999

  predicate IsLeapYear(y: int) {
    y % 4 == 0 && (y % 100 != 0 || y % 400 == 0)
  }

  function DaysInYear(y: int): int {
    if IsLeapYear(y) then 366 else 365
  }

  /** Python's `_days_in_month`. */
  function DaysInMonth(y: int, m: int): int
    requires 1 <= m <= 12
  {
    if m == 2 then (if IsLeapYear(y) then 29 else 28)
    else if m == 4 || m == 6 || m == 9 || m == 11 then 30
    else 31
  }

  predicate IsValid(d: CivilDate) {
    && MinYear <= d.year <= MaxYear
    && 1 <= d.month <= 12
    && 1 <= d.day <= DaysInMonth(d.year, d.month)
  }

  /** A calendar date Python's `datetime.date` can represent. */
  type Date = d: CivilDate | IsValid(d) witness CivilDate(1, 1, 1)

  const MinDate: Date := CivilDate(1, 1, 1)
  const MaxDate: Date := CivilDate(9999, 12, 31)

  /** The ordinal of MaxDate (Python's `date.max.toordinal()`). */
  const MaxOrdinal: int := 3652059

  /** Python's `_days_before_year`: 365 days a year, plus one for every
      fourth year, less the centuries, plus the fourth centuries. */
  function DaysBeforeYear(y: int): int {
    var p := y - 1;
    p * 365 + p / 4 - p / 100 + p / 400
  }

  /** Python's `_days_before_month`: days in the months of year y before month m. */
  function DaysBeforeMonth(y: int, m: int): int
    requires 1 <= m <= 12
  {
    CommonDaysBeforeMonth(m) + (if m > 2 && IsLeapYear(y) then 1 else 0)
  }

  /** Days before the first of month m in a common year. */
  function CommonDaysBeforeMonth(m: int): int
    requires 1 <= m <= 12
  {
    match m
    case 1 => 0
    case 2 => 31
    case 3 => 59
    case 4 => 90
    case 5 => 120
    case 6 => 151
    case 7 => 181
    case 8 => 212
    case 9 => 243
    case 10 => 273
    case 11 => 304
    case _ => 334
  }

  /** Python's `date.toordinal()`: 0001-01-01 is day 1. */
  function Ordinal(d: Date): int {
    DaysBeforeYear(d.year) + DaysBeforeMonth(d.year, d.month) + d.day
  }

  /** Python's `a < b` on dates: lexicographic on (year, month, day). */
  predicate Before(a: CivilDate, b: CivilDate) {
    || a.year < b.year
    || (a.year == b.year && a.month < b.month)
    || (a.year == b.year && a.month == b.month && a.day < b.day)
  }

  /** Dates in strictly ascending order, hence without repeats. */
  predicate StrictlyAscending(s: seq<CivilDate>) {
    forall k, l :: 0 <= k < l < |s| ==> Before(s[k], s[l])
  }

  /** Two strictly ascending sequences holding the same dates are equal. */
  lemma {:induction false} AscendingUnique(a: seq<CivilDate>, b: seq<CivilDate>)
    requires StrictlyAscending(a) && StrictlyAscending(b)
    requires forall d :: d in a <==> d in b
    ensures a == b
  {
    if |a| > 0 && |b| > 0 {
      LeastOfAscending(a, b[0]);
      LeastOfAscending(b, a[0]);
      forall d | d in a[1..]
        ensures d in b[1..]
      {
        assert d in b && d != b[0];
      }
      forall d | d in b[1..]
        ensures d in a[1..]
      {
        assert d in a && d != a[0];
      }
      AscendingUnique(a[1..], b[1..]);
      assert a == [a[0]] + a[1..];
      assert b == [b[0]] + b[1..];
    } else if |a| > 0 {
      NotInEmpty(b, a[0]);
      assert false;
    } else if |b| > 0 {
      NotInEmpty(a, b[0]);
      assert false;
    }
  }

  lemma NotInEmpty(s: seq<CivilDate>, d: CivilDate)
    requires |s| == 0
    ensures d !in s
  {
  }

  /** The first element of an ascending sequence comes no later than any other. */
  lemma LeastOfAscending(s: seq<CivilDate>, d: CivilDate)
    requires StrictlyAscending(s) && d in s
    ensures s[0] == d || Before(s[0], d)
  {
  }

  // ---------------------------------------------------------------------
  // Arithmetic facts about the ordinal

  lemma DivStep(y: int)
    requires y >= 1
    ensures y / 4 - (y - 1) / 4 == (if y % 4 == 0 then 1 else 0)
    ensures y / 100 - (y - 1) / 100 == (if y % 100 == 0 then 1 else 0)
    ensures y / 400 - (y - 1) / 400 == (if y % 400 == 0 then 1 else 0)
  {
  }

  lemma CenturyIsMultipleOfFour(y: int)
    requires y % 100 == 0
    ensures y % 4 == 0
  {
    var k := y / 100;
    assert y == 100 * k;
    assert y == 4 * (25 * k);
  }

  lemma QuadCenturyIsCentury(y: int)
    requires y % 400 == 0
    ensures y % 100 == 0
  {
    var k := y / 400;
    assert y == 100 * (4 * k);
  }

  /** A year contributes its own length to the days before the next one. */
  lemma DaysBeforeYearStep(y: int)
    requires y >= 1
    ensures DaysBeforeYear(y + 1) == DaysBeforeYear(y) + DaysInYear(y)
  {
    DivStep(y);
    if y % 100 == 0 {
      CenturyIsMultipleOfFour(y);
    }
    if y % 400 == 0 {
      QuadCenturyIsCentury(y);
    }
  }

  lemma {:induction false} DaysBeforeYearMonotone(a: int, b: int)
    requires 1 <= a <= b
    ensures DaysBeforeYear(a) + 365 * (b - a) <= DaysBeforeYear(b)
    decreases b - a
  {
    if a < b {
      DaysBeforeYearMonotone(a, b - 1);
      DaysBeforeYearStep(b - 1);
    }
  }

  lemma DaysBeforeMonthStep(y: int, m: int)
    requires 1 <= m < 12
    ensures DaysBeforeMonth(y, m + 1) == DaysBeforeMonth(y, m) + DaysInMonth(y, m)
  {
  }

  lemma LastMonthEndsYear(y: int)
    ensures DaysBeforeMonth(y, 12) + DaysInMonth(y, 12) == DaysInYear(y)
  {
  }

  lemma {:induction false} DaysBeforeMonthMonotone(y: int, a: int, b: int)
    requires 1 <= a < b <= 12
    ensures DaysBeforeMonth(y, a) + DaysInMonth(y, a) <= DaysBeforeMonth(y, b)
    decreases b - a
  {
    DaysBeforeMonthStep(y, a);
    if a + 1 < b {
      DaysBeforeMonthMonotone(y, a + 1, b);
    }
  }

  /** Every day of year y lies before the first day of year y + 1. */
  lemma OrdinalWithinYear(d: Date)
    ensures DaysBeforeYear(d.year) < Ordinal(d) <= DaysBeforeYear(d.year + 1)
  {
    DaysBeforeYearStep(d.year);
    LastMonthEndsYear(d.year);
    if d.month < 12 {
      DaysBeforeMonthMonotone(d.year, d.month, 12);
    }
  }

  /** Python's tuple comparison of dates agrees with comparison of ordinals. */
  lemma BeforeIsOrdinalLess(a: Date, b: Date)
    ensures Before(a, b) <==> Ordinal(a) < Ordinal(b)
  {
    if a.year < b.year {
      OrdinalWithinYear(a);
      OrdinalWithinYear(b);
      DaysBeforeYearMonotone(a.year + 1, b.year);
    } else if b.year < a.year {
      OrdinalWithinYear(a);
      OrdinalWithinYear(b);
      DaysBeforeYearMonotone(b.year + 1, a.year);
    } else if a.month < b.month {
      DaysBeforeMonthMonotone(a.year, a.month, b.month);
    } else if b.month < a.month {
      DaysBeforeMonthMonotone(a.year, b.month, a.month);
    }
  }

  /** A date after b, or b itself, comes after anything before b. */
  lemma BeforeThenNotBefore(a: Date, b: Date, c: Date)
    requires Before(a, b) && !Before(c, b)
    ensures Before(a, c)
  {
    BeforeIsOrdinalLess(a, b);
    BeforeIsOrdinalLess(c, b);
    BeforeIsOrdinalLess(a, c);
  }

  /** Distinct dates have distinct ordinals. */
  lemma OrdinalInjective(a: Date, b: Date)
    ensures Ordinal(a) == Ordinal(b) <==> a == b
  {
    BeforeIsOrdinalLess(a, b);
    BeforeIsOrdinalLess(b, a);
  }

  lemma OrdinalOfMinDate()
    ensures Ordinal(MinDate) == 1
  {
  }

  lemma OrdinalOfMaxDate()
    ensures Ordinal(MaxDate) == MaxOrdinal
  {
  }

  lemma OrdinalAtLeastOne(d: Date)
    ensures 1 <= Ordinal(d)
  {
    OrdinalWithinYear(d);
    DaysBeforeYearMonotone(1, d.year);
  }

  lemma OrdinalAtMostMax(d: Date)
    ensures Ordinal(d) <= MaxOrdinal
  {
    if d != MaxDate {
      assert Before(d, MaxDate);
      BeforeIsOrdinalLess(d, MaxDate);
      OrdinalOfMaxDate();
    }
  }

  // ---------------------------------------------------------------------
  // Stepping through the calendar

  /** The day after d; its ordinal is one more. */
  function NextDay(d: Date): (r: Date)
    requires d != MaxDate
    ensures Ordinal(r) == Ordinal(d) + 1
    ensures Before(d, r)
  {
    if d.day < DaysInMonth(d.year, d.month) then
      CivilDate(d.year, d.month, d.day + 1)
    else if d.month < 12 then
      DaysBeforeMonthStep(d.year, d.month);
      CivilDate(d.year, d.month + 1, 1)
    else
      DaysBeforeYearStep(d.year);
      LastMonthEndsYear(d.year);
      CivilDate(d.year + 1, 1, 1)
  }

  /** The day before d; its ordinal is one less. */
  function PrevDay(d: Date): (r: Date)
    requires d != MinDate
    ensures Ordinal(r) == Ordinal(d) - 1
    ensures Before(r, d)
  {
    if d.day > 1 then
      CivilDate(d.year, d.month, d.day - 1)
    else if d.month > 1 then
      DaysBeforeMonthStep(d.year, d.month - 1);
      CivilDate(d.year, d.month - 1, DaysInMonth(d.year, d.month - 1))
    else
      DaysBeforeYearStep(d.year - 1);
      LastMonthEndsYear(d.year - 1);
      CivilDate(d.year - 1, 12, 31)
  }

  /** No date lies strictly between a date and its next day. */
  lemma NextDayIsSuccessor(a: Date, b: Date)
    requires a != MaxDate && Before(a, b)
    ensures NextDay(a) == b || Before(NextDay(a), b)
  {
    BeforeIsOrdinalLess(a, b);
    BeforeIsOrdinalLess(NextDay(a), b);
    OrdinalInjective(NextDay(a), b);
  }

  /** Python's `(b - a).days` for dates a and b. */
  function DayDifference(a: Date, b: Date): int {
    Ordinal(b) - Ordinal(a)
  }

  /** n applications of NextDay, or None once 9999-12-31 would be passed. */
  function StepForward(d: Date, n: nat): (r: Option<Date>)
    ensures r.Some? ==> Ordinal(r.value) == Ordinal(d) + n
    decreases n
  {
    if n == 0 then Some(d)
    else if d == MaxDate then None
    else StepForward(NextDay(d), n - 1)
  }

  /** n applications of PrevDay, or None once 0001-01-01 would be passed. */
  function StepBackward(d: Date, n: nat): (r: Option<Date>)
    ensures r.Some? ==> Ordinal(r.value) == Ordinal(d) - n
    decreases n
  {
    if n == 0 then Some(d)
    else if d == MinDate then None
    else StepBackward(PrevDay(d), n - 1)
  }

  lemma {:induction false} StepForwardDefined(d: Date, n: nat)
    ensures StepForward(d, n).Some? <==> Ordinal(d) + n <= MaxOrdinal
    decreases n
  {
    if n == 0 {
      OrdinalAtMostMax(d);
    } else if d == MaxDate {
      OrdinalOfMaxDate();
    } else {
      StepForwardDefined(NextDay(d), n - 1);
    }
  }

  lemma {:induction false} StepBackwardDefined(d: Date, n: nat)
    ensures StepBackward(d, n).Some? <==> 1 <= Ordinal(d) - n
    decreases n
  {
    if n == 0 {
      OrdinalAtLeastOne(d);
    } else if d == MinDate {
      OrdinalOfMinDate();
    } else {
      StepBackwardDefined(PrevDay(d), n - 1);
    }
  }

  /** Python's `d + timedelta(days=n)`: None where Python raises OverflowError. */
  function AddDays(d: Date, n: int): (r: Option<Date>)
    ensures r.Some? <==> 1 <= Ordinal(d) + n <= MaxOrdinal
    ensures r.Some? ==> Ordinal(r.value) == Ordinal(d) + n
  {
    if n >= 0 then
      StepForwardDefined(d, n);
      OrdinalAtLeastOne(d);
      StepForward(d, n)
    else
      StepBackwardDefined(d, -n);
      OrdinalAtMostMax(d);
      StepBackward(d, -n)
  }

  /** Adding n days to d and measuring from d gives back n, and the date
      reached is the only one at that distance. */
  lemma {:induction false} AddDaysThenDifference(d: Date, n: int, e: Date)
    requires AddDays(d, n) == Some(e)
    ensures DayDifference(d, e) == n
    ensures forall x: Date :: DayDifference(d, x) == n ==> x == e
  {
    forall x: Date | DayDifference(d, x) == n
      ensures x == e
    {
      OrdinalInjective(x, e);
    }
  }

  /** Python's `date.isoweekday()`: `toordinal() % 7 or 7`; Monday is 1. */
  function IsoWeekday(d: Date): (r: int)
    ensures 1 <= r <= 7
    ensures r == (Ordinal(d) - 1) % 7 + 1
  {
    WeekdayOfOrdinal(Ordinal(d))
  }

  function WeekdayOfOrdinal(o: int): (r: int)
    ensures 1 <= r <= 7
    ensures r == (o - 1) % 7 + 1
  {
    var w := o % 7;
    if w == 0 then 7 else w
  }

  /** Dates a week apart fall on the same weekday. */
  lemma WeekdayRepeatsWeekly(d: Date, e: Date)
    requires DayDifference(d, e) == 7
    ensures IsoWeekday(e) == IsoWeekday(d)
  {
    WeekdayOfOrdinalPeriodic(Ordinal(d));
  }

  lemma WeekdayOfOrdinalPeriodic(o: int)
    ensures WeekdayOfOrdinal(o + 7) == WeekdayOfOrdinal(o)
  {
  }

}
