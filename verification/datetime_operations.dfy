/** Model of exchange_rate_viewer/modules/datetime_operations.py: text
    dates in the calendar-date extended format YYYY-MM-DD of ISO 8601,
    day arithmetic, the range checks and the days the cache must hold. */
module DatetimeOperations {
  import opened Wrappers
  import opened Errors
  import opened Calendar

  /** config.MAX_DATE_RANGE: the longest range, in days, the rate source serves. */
  const MaxDateRange: int := 93

  // ---------------------------------------------------------------------
  // Decimal digits

  predicate IsDigit(c: char) {
    '0' <= c <= '9'
  }

  predicate AllDigits(s: string) {
    forall i :: 0 <= i < |s| ==> IsDigit(s[i])
  }

  function DigitChar(n: int): (c: char)
    requires 0 <= n <= 9
    ensures IsDigit(c)
  {
    ('0' as int + n) as char
  }

  function DigitValue(c: char): (n: int)
    requires IsDigit(c)
    ensures 0 <= n <= 9 && DigitChar(n) == c
  {
    c as int - '0' as int
  }

  function Pow10(k: nat): (p: int)
    ensures p >= 1
  {
    if k == 0 then 1 else 10 * Pow10(k - 1)
  }

  /** The decimal number an all-digit text denotes. */
  function ParseNatural(s: string): (n: int)
    requires AllDigits(s)
    ensures 0 <= n < Pow10(|s|)
  {
    if |s| == 0 then 0 else 10 * ParseNatural(s[..|s| - 1]) + DigitValue(s[|s| - 1])
  }

  /** n written with exactly `width` digits, zero-padded on the left
      (strftime's %Y, %m and %d on values below 10^width). */
  function PadNatural(n: int, width: nat): (s: string)
    requires 0 <= n
    ensures |s| == width && AllDigits(s)
  {
    if width == 0 then [] else PadNatural(n / 10, width - 1) + [DigitChar(n % 10)]
  }

  /** Reading back a zero-padded number gives the number. */
  lemma {:induction false} ParsePadded(n: int, width: nat)
    requires 0 <= n < Pow10(width)
    ensures ParseNatural(PadNatural(n, width)) == n
  {
    if width > 0 {
      var s := PadNatural(n, width);
      assert s[..|s| - 1] == PadNatural(n / 10, width - 1);
      ParsePadded(n / 10, width - 1);
    }
  }

  /** Padding the number an all-digit text denotes rewrites that text. */
  lemma {:induction false} PadParsed(s: string)
    requires AllDigits(s)
    ensures PadNatural(ParseNatural(s), |s|) == s
  {
    if |s| > 0 {
      var init := s[..|s| - 1];
      var n := ParseNatural(s);
      assert n / 10 == ParseNatural(init);
      assert n % 10 == DigitValue(s[|s| - 1]);
      PadParsed(init);
      assert s == init + [s[|s| - 1]];
    }
  }

  // ---------------------------------------------------------------------
  // str_to_date and date_to_str

  /** date_to_str: strftime("%Y-%m-%d"). */
  function DateToStr(d: Date): (s: string)
    ensures |s| == 10 && s[4] == '-' && s[7] == '-'
  {
    PadNatural(d.year, 4) + "-" + PadNatural(d.month, 2) + "-" + PadNatural(d.day, 2)
  }

  /** str_to_date: strptime(s, "%Y-%m-%d").date(), failing with the text
      itself where Python raises ValueError. */
  function StrToDate(s: string): (r: Result<Date, Error>)
    ensures r.Failure? ==> r.error == MalformedDate(s)
  {
    if |s| == 10 && s[4] == '-' && s[7] == '-'
       && AllDigits(s[..4]) && AllDigits(s[5..7]) && AllDigits(s[8..])
    then
      var c := CivilDate(ParseNatural(s[..4]), ParseNatural(s[5..7]), ParseNatural(s[8..]));
      if IsValid(c) then Success(c) else Failure(MalformedDate(s))
    else
      Failure(MalformedDate(s))
  }

  /** Formatting a date and parsing the text gives the date back. */
  lemma StrToDateOfDateToStr(d: Date)
    ensures StrToDate(DateToStr(d)) == Success(d)
  {
    var s := DateToStr(d);
    assert s[..4] == PadNatural(d.year, 4);
    assert s[5..7] == PadNatural(d.month, 2);
    assert s[8..] == PadNatural(d.day, 2);
    ParsePadded(d.year, 4);
    ParsePadded(d.month, 2);
    ParsePadded(d.day, 2);
  }

  /** Every text that parses is the formatting of its date: the parser
      accepts nothing but the canonical form. */
  lemma DateToStrOfStrToDate(s: string)
    requires StrToDate(s).Success?
    ensures DateToStr(StrToDate(s).value) == s
  {
    RejoinFields(s);
  }

  /** A text of the YYYY-MM-DD shape is the padded rewriting of its fields. */
  lemma RejoinFields(s: string)
    requires |s| == 10 && s[4] == '-' && s[7] == '-'
    requires AllDigits(s[..4]) && AllDigits(s[5..7]) && AllDigits(s[8..])
    ensures PadNatural(ParseNatural(s[..4]), 4) + "-" + PadNatural(ParseNatural(s[5..7]), 2) + "-"
            + PadNatural(ParseNatural(s[8..]), 2) == s
  {
    PadParsed(s[..4]);
    PadParsed(s[5..7]);
    PadParsed(s[8..]);
    assert s == s[..4] + "-" + s[5..7] + "-" + s[8..];
  }

  // ---------------------------------------------------------------------
  // Day arithmetic and the range checks

  /** get_difference_in_days: `(str_to_date(end) - str_to_date(start)).days`.
      The end text is parsed first, so its error wins when both are malformed. */
  function GetDifferenceInDays(startDate: string, endDate: string): (r: Result<int, Error>)
    ensures r.Success? <==> StrToDate(startDate).Success? && StrToDate(endDate).Success?
    ensures StrToDate(endDate).Failure? ==> r == Failure(MalformedDate(endDate))
    ensures StrToDate(endDate).Success? && StrToDate(startDate).Failure? ==> r == Failure(MalformedDate(startDate))
  {
    match StrToDate(endDate)
    case Failure(e) => Failure(e)
    case Success(last) =>
      match StrToDate(startDate)
      case Failure(e) => Failure(e)
      case Success(first) => Success(DayDifference(first, last))
  }

  /** Swapping the two dates negates the difference. */
  lemma DifferenceAntisymmetric(startDate: string, endDate: string)
    requires GetDifferenceInDays(startDate, endDate).Success?
    ensures GetDifferenceInDays(endDate, startDate) == Success(-GetDifferenceInDays(startDate, endDate).value)
  {
  }

  /** add_days_to_date: `date_obj + timedelta(days=days)`. */
  function AddDaysToDate(date: Date, days: int): (r: Result<Date, Error>)
    ensures r.Success? <==> 1 <= Ordinal(date) + days <= MaxOrdinal
    ensures r.Failure? ==> r.error == DateOverflow
    ensures r.Success? ==> DayDifference(date, r.value) == days
  {
    match AddDays(date, days)
    case None => Failure(DateOverflow)
    case Some(d) => Success(d)
  }

  /** Adding n days and then measuring, through the texts, from the
      original date gives n back. */
  lemma AddThenMeasure(date: Date, days: int)
    requires AddDaysToDate(date, days).Success?
    ensures GetDifferenceInDays(DateToStr(date), DateToStr(AddDaysToDate(date, days).value)) == Success(days)
  {
    StrToDateOfDateToStr(date);
    StrToDateOfDateToStr(AddDaysToDate(date, days).value);
  }

  /** The tests' cases: ten days after 2021-01-01 is 2021-01-11, ten days
      before it is 2020-12-22, across the year boundary. */
  lemma AddDaysExamples()
    ensures AddDaysToDate(CivilDate(2021, 1, 1), 10) == Success(CivilDate(2021, 1, 11))
    ensures AddDaysToDate(CivilDate(2021, 1, 1), -10) == Success(CivilDate(2020, 12, 22))
  {
    var d: Date := CivilDate(2021, 1, 1);
    JanuaryOrdinal(d);
    JanuaryOrdinal(CivilDate(2021, 1, 11));
    assert Ordinal(CivilDate(2020, 12, 22)) == 737781 by {
      assert 2019 / 4 == 504 && 2019 / 100 == 20 && 2019 / 400 == 5;
      assert DaysBeforeYear(2020) == 737424;
    }
    OrdinalInjective(AddDaysToDate(d, 10).value, CivilDate(2021, 1, 11));
    OrdinalInjective(AddDaysToDate(d, -10).value, CivilDate(2020, 12, 22));
  }

  /** The tests' cases: from 2021-01-01 to 2021-01-10 is 9 days, and -9
      the other way round. */
  lemma DifferenceExamples()
    ensures GetDifferenceInDays("2021-01-01", "2021-01-10") == Success(9)
    ensures GetDifferenceInDays("2021-01-10", "2021-01-01") == Success(-9)
  {
    var a: Date := CivilDate(2021, 1, 1);
    var b: Date := CivilDate(2021, 1, 10);
    JanuaryText();
    StrToDateOfDateToStr(a);
    StrToDateOfDateToStr(b);
    JanuaryOrdinal(a);
    JanuaryOrdinal(b);
  }

  /** The texts of 2021-01-01 and 2021-01-10. */
  lemma JanuaryText()
    ensures DateToStr(CivilDate(2021, 1, 1)) == "2021-01-01"
    ensures DateToStr(CivilDate(2021, 1, 10)) == "2021-01-10"
  {
    PadYear2021();
    PadOneAndTen();
  }

  lemma PadYear2021()
    ensures PadNatural(2021, 4) == "2021"
  {
    assert DigitChar(0) == '0' && DigitChar(1) == '1' && DigitChar(2) == '2';
    assert PadNatural(2, 1) == [] + ['2'];
    assert PadNatural(20, 2) == "2" + ['0'];
    assert PadNatural(202, 3) == "20" + ['2'];
    assert PadNatural(2021, 4) == "202" + ['1'];
  }

  lemma PadOneAndTen()
    ensures PadNatural(1, 2) == "01"
    ensures PadNatural(10, 2) == "10"
  {
    assert DigitChar(0) == '0' && DigitChar(1) == '1';
    assert PadNatural(0, 1) == [] + ['0'];
    assert PadNatural(1, 1) == [] + ['1'];
    assert PadNatural(1, 2) == "0" + ['1'];
    assert PadNatural(10, 2) == "1" + ['0'];
  }

  /** start_date_after_end_date: `str_to_date(start) > str_to_date(end)`.
      The start text is parsed first. */
  function StartDateAfterEndDate(startDate: string, endDate: string): (r: Result<bool, Error>)
    ensures r.Success? <==> GetDifferenceInDays(startDate, endDate).Success?
    ensures r.Success? ==> (r.value <==> GetDifferenceInDays(startDate, endDate).value < 0)
    ensures StrToDate(startDate).Failure? ==> r == Failure(MalformedDate(startDate))
    ensures StrToDate(startDate).Success? && StrToDate(endDate).Failure? ==> r == Failure(MalformedDate(endDate))
  {
    match StrToDate(startDate)
    case Failure(e) => Failure(e)
    case Success(first) =>
      match StrToDate(endDate)
      case Failure(e) => Failure(e)
      case Success(last) =>
        BeforeIsOrdinalLess(last, first);
        Success(Before(last, first))
  }

  /** max_range_exceeded: `str_to_date(end) - str_to_date(start) > max_range`,
      a strict comparison. The end text is parsed first. */
  function MaxRangeExceeded(startDate: string, endDate: string, maxRange: int): (r: Result<bool, Error>)
    ensures r.Success? <==> GetDifferenceInDays(startDate, endDate).Success?
    ensures r.Success? ==> (r.value <==> GetDifferenceInDays(startDate, endDate).value > maxRange)
    ensures r.Failure? ==> r.error == GetDifferenceInDays(startDate, endDate).error
  {
    match StrToDate(endDate)
    case Failure(e) => Failure(e)
    case Success(last) =>
      match StrToDate(startDate)
      case Failure(e) => Failure(e)
      case Success(first) => Success(Ordinal(last) - Ordinal(first) > maxRange)
  }

  /** A range of exactly 93 days is allowed; one of 94 days is not. */
  lemma MaxRangeBoundary(start: Date, end93: Date, end94: Date)
    requires DayDifference(start, end93) == MaxDateRange && DayDifference(start, end94) == MaxDateRange + 1
    ensures MaxRangeExceeded(DateToStr(start), DateToStr(end93), MaxDateRange) == Success(false)
    ensures MaxRangeExceeded(DateToStr(start), DateToStr(end94), MaxDateRange) == Success(true)
  {
    StrToDateOfDateToStr(start);
    StrToDateOfDateToStr(end93);
    StrToDateOfDateToStr(end94);
  }

  /** date_not_weekend: `isoweekday() < 6`. */
  function DateNotWeekend(date: Date): (r: bool)
    ensures r <==> 1 <= IsoWeekday(date) <= 5
  {
    IsoWeekday(date) < 6
  }

  /** Whether a day is a weekday repeats every seven days. */
  lemma WeekendRepeatsWeekly(date: Date)
    requires AddDays(date, 7).Some?
    ensures DateNotWeekend(AddDays(date, 7).value) == DateNotWeekend(date)
  {
    WeekdayRepeatsWeekly(date, AddDays(date, 7).value);
  }

  /** 2021-01-01 was a Friday and 2021-01-02 a Saturday. */
  lemma WeekendExamples()
    ensures DateNotWeekend(CivilDate(2021, 1, 1))
    ensures !DateNotWeekend(CivilDate(2021, 1, 2))
  {
    JanuaryOrdinal(CivilDate(2021, 1, 1));
    JanuaryOrdinal(CivilDate(2021, 1, 2));
  }

  // ---------------------------------------------------------------------
  // define_all_days_to_check

  /** days lists, in ascending order, exactly the Monday-to-Friday dates
      among start+lo, ..., start+(hi-1). */
  ghost predicate ListsBusinessDays(start: Date, lo: int, hi: int, days: seq<Date>) {
    && (forall k :: 0 <= k < |days| ==> lo <= DayDifference(start, days[k]) < hi && DateNotWeekend(days[k]))
    && StrictlyAscending(days)
    && (forall d: Date :: lo <= DayDifference(start, d) < hi && DateNotWeekend(d) ==> d in days)
  }

  /** The weekdays among start+i, ..., start+(n-1), or DateOverflow when one
      of those days lies past 9999-12-31. */
  function CollectBusinessDays(start: Date, i: nat, n: int): (r: Result<seq<Date>, Error>)
    requires i <= n
    ensures r.Success? <==> i == n || Ordinal(start) + n - 1 <= MaxOrdinal
    ensures r.Failure? ==> r.error == DateOverflow
    ensures r.Success? ==> ListsBusinessDays(start, i, n, r.value)
    decreases n - i
  {
    if i == n then
      Success([])
    else
      match AddDays(start, i)
      case None =>
        OrdinalAtLeastOne(start);
        Failure(DateOverflow)
      case Some(day) =>
        var rest := CollectBusinessDays(start, i + 1, n);
        if rest.Failure? then
          rest
        else
          BusinessDaysStep(start, i, n, day, rest.value);
          Success((if DateNotWeekend(day) then [day] else []) + rest.value)
  }

  /** Prepending start+i, when it is a weekday, to the weekdays of
      start+(i+1) .. start+(n-1) gives the weekdays of start+i .. start+(n-1). */
  lemma BusinessDaysStep(start: Date, i: int, n: int, day: Date, rest: seq<Date>)
    requires i < n && AddDays(start, i) == Some(day)
    requires ListsBusinessDays(start, i + 1, n, rest)
    ensures ListsBusinessDays(start, i, n, (if DateNotWeekend(day) then [day] else []) + rest)
  {
    AddDaysThenDifference(start, i, day);
    forall k | 0 <= k < |rest| ensures Before(day, rest[k]) {
      BeforeIsOrdinalLess(day, rest[k]);
    }
  }

  /** The as-written loop body: for every weekday among start+i, ...,
      start+(n-1) it appends the start text itself, not the weekday. */
  function CollectStartTexts(startDate: string, start: Date, i: nat, n: int): (r: Result<seq<string>, Error>)
    requires i <= n
    ensures r.Success? <==> CollectBusinessDays(start, i, n).Success?
    ensures r.Failure? ==> r.error == CollectBusinessDays(start, i, n).error
    ensures r.Success? ==> |r.value| == |CollectBusinessDays(start, i, n).value|
    ensures r.Success? ==> forall k :: 0 <= k < |r.value| ==> r.value[k] == startDate
    decreases n - i
  {
    if i == n then
      Success([])
    else
      match AddDays(start, i)
      case None => Failure(DateOverflow)
      case Some(day) =>
        var rest := CollectStartTexts(startDate, start, i + 1, n);
        if rest.Failure? then
          rest
        else
          Success((if DateNotWeekend(day) then [startDate] else []) + rest.value)
  }

  /** define_all_days_to_check as written: `range(days_difference)` walks
      the half-open window start, ..., start+(n-1), and for every weekday in
      it the start text is appended. The start text is parsed only when the
      window is non-empty. */
  function DefineAllDaysToCheck(startDate: string, daysDifference: int): (r: Result<seq<string>, Error>)
    ensures r.Success? <==> BusinessDaysToCheck(startDate, daysDifference).Success?
    ensures r.Failure? ==> r.error == BusinessDaysToCheck(startDate, daysDifference).error
    ensures r.Success? ==> |r.value| == |BusinessDaysToCheck(startDate, daysDifference).value|
    ensures r.Success? ==> forall k :: 0 <= k < |r.value| ==> r.value[k] == startDate
  {
    if daysDifference <= 0 then
      Success([])
    else
      match StrToDate(startDate)
      case Failure(e) => Failure(e)
      case Success(start) => CollectStartTexts(startDate, start, 0, daysDifference)
  }

  /** define_all_days_to_check as its test expects it: the weekdays of the
      half-open window start, ..., start+(n-1) themselves, ascending. */
  function BusinessDaysToCheck(startDate: string, daysDifference: int): (r: Result<seq<Date>, Error>)
    ensures daysDifference <= 0 ==> r == Success([])
    ensures daysDifference > 0 && StrToDate(startDate).Failure? ==> r == Failure(MalformedDate(startDate))
    ensures daysDifference > 0 && StrToDate(startDate).Success? ==>
      var start := StrToDate(startDate).value;
      && (r.Success? <==> Ordinal(start) + daysDifference - 1 <= MaxOrdinal)
      && (r.Failure? ==> r.error == DateOverflow)
      && (r.Success? ==> ListsBusinessDays(start, 0, daysDifference, r.value))
  {
    if daysDifference <= 0 then
      Success([])
    else
      match StrToDate(startDate)
      case Failure(e) => Failure(e)
      case Success(start) => CollectBusinessDays(start, 0, daysDifference)
  }

  /** The weekday list of a window is determined by the window. */
  lemma BusinessDaysUnique(start: Date, lo: int, hi: int, a: seq<Date>, b: seq<Date>)
    requires ListsBusinessDays(start, lo, hi, a) && ListsBusinessDays(start, lo, hi, b)
    ensures a == b
  {
    AscendingUnique(a, b);
  }

  /** Every weekday within ten days of Friday 2021-01-01 is one of the six
      dates the test lists. */
  lemma FirstTenDaysOf2021(d: Date)
    requires 0 <= DayDifference(CivilDate(2021, 1, 1), d) < 10 && DateNotWeekend(d)
    ensures d in ExampleWeekdays
  {
    var k := DayDifference(CivilDate(2021, 1, 1), d);
    var e: Date := CivilDate(2021, 1, 1 + k);
    JanuaryOrdinal(CivilDate(2021, 1, 1));
    JanuaryOrdinal(e);
    OrdinalInjective(d, e);
    JanuaryWeekends();
  }

  /** The weekend days of the first ten days of January 2021. */
  lemma JanuaryWeekends()
    ensures !DateNotWeekend(CivilDate(2021, 1, 2)) && !DateNotWeekend(CivilDate(2021, 1, 3))
    ensures !DateNotWeekend(CivilDate(2021, 1, 9)) && !DateNotWeekend(CivilDate(2021, 1, 10))
  {
    JanuaryOrdinal(CivilDate(2021, 1, 2));
    JanuaryOrdinal(CivilDate(2021, 1, 3));
    JanuaryOrdinal(CivilDate(2021, 1, 9));
    JanuaryOrdinal(CivilDate(2021, 1, 10));
  }

  /** The six weekdays the test expects for ten days from 2021-01-01. */
  const ExampleWeekdays: seq<Date> := [
    CivilDate(2021, 1, 1), CivilDate(2021, 1, 4), CivilDate(2021, 1, 5),
    CivilDate(2021, 1, 6), CivilDate(2021, 1, 7), CivilDate(2021, 1, 8)]

  lemma ExampleWeekdaysListed()
    ensures ListsBusinessDays(CivilDate(2021, 1, 1), 0, 10, ExampleWeekdays)
  {
    ExampleWeekdaysInWindow();
    ExampleWeekdaysComplete();
    ExampleWeekdaysAscending();
  }

  lemma ExampleWeekdaysAscending()
    ensures StrictlyAscending(ExampleWeekdays)
  {
  }

  lemma ExampleWeekdaysInWindow()
    ensures forall k :: 0 <= k < |ExampleWeekdays| ==>
      0 <= DayDifference(CivilDate(2021, 1, 1), ExampleWeekdays[k]) < 10 && DateNotWeekend(ExampleWeekdays[k])
  {
    forall k | 0 <= k < |ExampleWeekdays|
      ensures 0 <= DayDifference(CivilDate(2021, 1, 1), ExampleWeekdays[k]) < 10
      ensures DateNotWeekend(ExampleWeekdays[k])
    {
      JanuaryOrdinal(ExampleWeekdays[k]);
      JanuaryOrdinal(CivilDate(2021, 1, 1));
    }
  }

  lemma ExampleWeekdaysComplete()
    ensures forall d: Date :: 0 <= DayDifference(CivilDate(2021, 1, 1), d) < 10 && DateNotWeekend(d) ==> d in ExampleWeekdays
  {
    forall d: Date | 0 <= DayDifference(CivilDate(2021, 1, 1), d) < 10 && DateNotWeekend(d)
      ensures d in ExampleWeekdays
    {
      FirstTenDaysOf2021(d);
    }
  }

  /** Days of January 2021 follow ordinal 737790, whose weekday is Thursday. */
  lemma JanuaryOrdinal(d: Date)
    requires d.year == 2021 && d.month == 1
    ensures Ordinal(d) == 737790 + d.day
    ensures IsoWeekday(d) == (3 + d.day) % 7 + 1
  {
    assert DaysBeforeYear(2021) == 737790 by {
      assert 2020 / 4 == 505 && 2020 / 100 == 20 && 2020 / 400 == 5;
    }
    assert (737789 + d.day) % 7 == (3 + d.day) % 7 by {
      assert 737789 + d.day == 7 * 105398 + (3 + d.day);
    }
  }

  /** The test case: from Friday 2021-01-01 over ten days the corrected
      enumeration gives the six weekdays the test expects. */
  lemma BusinessDaysToCheckExample()
    ensures BusinessDaysToCheck("2021-01-01", 10) == Success(ExampleWeekdays)
  {
    var start: Date := CivilDate(2021, 1, 1);
    assert DateToStr(start) == "2021-01-01";
    StrToDateOfDateToStr(start);
    ExampleWeekdaysListed();
    BusinessDaysUnique(start, 0, 10, BusinessDaysToCheck("2021-01-01", 10).value, ExampleWeekdays);
  }

  /** The same case as written: six copies of the start text. */
  lemma DefineAllDaysToCheckExample()
    ensures DefineAllDaysToCheck("2021-01-01", 10) == Success([
      "2021-01-01", "2021-01-01", "2021-01-01",
      "2021-01-01", "2021-01-01", "2021-01-01"])
  {
    var t := "2021-01-01";
    BusinessDaysToCheckExample();
    SixCopies(DefineAllDaysToCheck(t, 10).value, t);
  }

  lemma SixCopies(s: seq<string>, t: string)
    requires |s| == 6 && forall k :: 0 <= k < |s| ==> s[k] == t
    ensures s == [t, t, t, t, t, t]
  {
  }
}
