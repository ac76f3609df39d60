/** Model of the cache reconciliation of exchange_rate_viewer/app.py: the
    test whether the local table already holds the requested days, the
    download that refreshes it from the rate source, and the branch of the
    POST handler of `index` that chooses between the two. The table and
    the rate source are values passed in and out, so every step is pure. */
module App {
  import opened Wrappers
  import opened Errors
  import opened Calendar
  import opened DatetimeOperations
  import opened RateStore
  import opened NbpApi
  import opened UserInputs
  import opened InputValidator

  // ---------------------------------------------------------------------
  // data_already_in_cache

  /** The loop of data_already_in_cache: every day to check is an element
      of the table, by Python's `in` (element equality). */
  function AllDaysPresent<T(==)>(currencyTable: seq<T>, daysToCheck: seq<T>): (r: bool)
    ensures r <==> forall i :: 0 <= i < |daysToCheck| ==> daysToCheck[i] in currencyTable
  {
    if |daysToCheck| == 0 then
      true
    else if daysToCheck[0] !in currencyTable then
      false
    else
      var rest := AllDaysPresent(currencyTable, daysToCheck[1..]);
      assert forall i :: 1 <= i < |daysToCheck| ==> daysToCheck[i] == daysToCheck[1..][i - 1];
      rest
  }

  /**
   * data_already_in_cache, over any element type: an empty table is never
   * a hit; a non-empty table is a hit exactly when it holds every day to
   * check (so a non-empty table and no days to check is a hit).
   */
  function DataAlreadyInCache<T(==)>(currencyTable: seq<T>, daysToCheck: seq<T>): (r: bool)
    ensures r <==> |currencyTable| > 0 && forall i :: 0 <= i < |daysToCheck| ==> daysToCheck[i] in currencyTable
  {
    if |currencyTable| == 0 then false else AllDaysPresent(currencyTable, daysToCheck)
  }

  /** Extra table entries never turn a hit into a miss. */
  lemma CacheHitMonotone<T>(currencyTable: seq<T>, larger: seq<T>, daysToCheck: seq<T>)
    requires forall i :: 0 <= i < |currencyTable| ==> currencyTable[i] in larger
    requires DataAlreadyInCache(currencyTable, daysToCheck)
    ensures DataAlreadyInCache(larger, daysToCheck)
  {
    assert currencyTable[0] in larger;
  }

  /** The three cases of the application's tests, on dates. */
  lemma CacheExamples()
    ensures DataAlreadyInCache(
              [CivilDate(2021, 1, 1), CivilDate(2021, 1, 2), CivilDate(2021, 1, 3)],
              [CivilDate(2021, 1, 1), CivilDate(2021, 1, 2), CivilDate(2021, 1, 3)])
    ensures !DataAlreadyInCache(
              [CivilDate(2021, 1, 1), CivilDate(2021, 1, 2), CivilDate(2021, 1, 3)],
              [CivilDate(2021, 1, 1), CivilDate(2021, 1, 2), CivilDate(2021, 1, 3), CivilDate(2021, 1, 4)])
    ensures !DataAlreadyInCache([], [CivilDate(2021, 1, 1), CivilDate(2021, 1, 2), CivilDate(2021, 1, 3)])
  {
    var days := [CivilDate(2021, 1, 1), CivilDate(2021, 1, 2), CivilDate(2021, 1, 3), CivilDate(2021, 1, 4)];
    assert days[3] !in days[..3];
  }

  // ---------------------------------------------------------------------
  // The comparison as written

  /** The Python values the as-written comparison meets: the start text
      that define_all_days_to_check appends, and the (date text, rate)
      tuples that the SELECT returns. Values of different shapes are never
      equal in Python, as constructors of a datatype are not. */
  datatype PyValue = PyStr(text: string) | PyRow(dateText: string, rate: Rate)

  /** The table as fetchall() returns it: one (text, rate) tuple per row. */
  function RowsAsFetched(table: seq<Entry>): (r: seq<PyValue>)
    ensures |r| == |table|
    ensures forall i :: 0 <= i < |r| ==> r[i] == PyRow(DateToStr(table[i].date), table[i].rate)
  {
    seq(|table|, i requires 0 <= i < |table| => PyRow(DateToStr(table[i].date), table[i].rate))
  }

  function TextsAsValues(days: seq<string>): (r: seq<PyValue>)
    ensures |r| == |days|
    ensures forall i :: 0 <= i < |r| ==> r[i] == PyStr(days[i])
  {
    seq(|days|, i requires 0 <= i < |days| => PyStr(days[i]))
  }

  /**
   * data_already_in_cache as called: a day text is never equal to a row
   * tuple, so the check hits only when the table is non-empty and there
   * is no day to check at all.
   */
  function DataAlreadyInCacheAsWritten(table: seq<Entry>, daysToCheck: seq<string>): (r: bool)
    ensures r <==> |table| > 0 && |daysToCheck| == 0
  {
    var rows := RowsAsFetched(table);
    var days := TextsAsValues(daysToCheck);
    assert forall v :: v in rows ==> v.PyRow?;
    DataAlreadyInCache(rows, days)
  }

  /**
   * The check the tests describe: the dates of the table's rows (the
   * `get_dates_from` projection) against the days to check. A hit exactly
   * when the table is non-empty and every day to check has a row.
   */
  function DataInCache(table: seq<Entry>, daysToCheck: seq<Date>): (r: bool)
    ensures r <==> |table| > 0 && forall i :: 0 <= i < |daysToCheck| ==>
                     exists k :: 0 <= k < |table| && table[k].date == daysToCheck[i]
  {
    var dates := DatesOf(table);
    forall i | 0 <= i < |daysToCheck| && daysToCheck[i] in dates
      ensures exists k :: 0 <= k < |table| && table[k].date == daysToCheck[i]
    {
      var k :| 0 <= k < |dates| && dates[k] == daysToCheck[i];
      assert table[k].date == daysToCheck[i];
    }
    DataAlreadyInCache(dates, daysToCheck)
  }

  // ---------------------------------------------------------------------
  // download_from_nbp_api and the reconciliation branch of index

  /** The table after a request, and what the request returned or raised. */
  datatype Served = Served(store: Store, result: Result<seq<Entry>, Error>)

  /** The download asks the rates URL of exactly the user's currency and
      dates (`f"{date}"` formats a date as YYYY-MM-DD): the URL reads back
      as those three parts when the currency holds no '/'. */
  lemma DownloadAsksForUserRange(u: UserInput)
    requires '/' !in u.selectedCurrency
    ensures ParseRatesUrl(BuildUrl(u.selectedCurrency, DateToStr(u.startDate), DateToStr(u.endDate)))
         == Some((u.selectedCurrency, DateToStr(u.startDate), DateToStr(u.endDate)))
  {
    NoSlashInDate(u.startDate);
    ParseRatesUrlOfBuildUrl(u.selectedCurrency, DateToStr(u.startDate), DateToStr(u.endDate));
  }

  /**
   * download_from_nbp_api: fetch the user's currency and range, save the
   * rows, then read the table back. The fetch is evaluated before the
   * save, so when it fails nothing is saved; on success the result is the
   * read of the updated table, not the fetched rows.
   */
  function DownloadFromNbpApi(store: Store, api: string -> Response<seq<RateRecord>>, u: UserInput): (r: Served)
    ensures var fetched := FetchCurrencyRates(api, u.selectedCurrency, DateToStr(u.startDate), DateToStr(u.endDate));
      && (r.result.Success? <==> fetched.Success?)
      && (fetched.Failure? ==> r.store == store && r.result.error == fetched.error)
      && (fetched.Success? ==> r.store == SaveCurrencyRatesToDb(store, fetched.value))
    ensures r.result.Success? ==>
      forall i :: 0 <= i < |r.result.value| ==> Selected(r.store, u.selectedCurrency, u.startDate, u.endDate, r.result.value[i])
    ensures r.result.Success? ==> StrictlyAscending(DatesOf(r.result.value))
    ensures r.result.Success? ==> forall d: Date ::
      InRange(d, u.startDate, u.endDate) && Key(d, u.selectedCurrency) in r.store ==>
        Entry(d, r.store[Key(d, u.selectedCurrency)]) in r.result.value
  {
    match FetchCurrencyRates(api, u.selectedCurrency, DateToStr(u.startDate), DateToStr(u.endDate))
    case Failure(e) =>
      Served(store, Failure(e))
    case Success(rows) =>
      var saved := SaveCurrencyRatesToDb(store, rows);
      Served(saved, Success(GetDataFromSqlTable(saved, u.selectedCurrency, u.startDate, u.endDate)))
  }

  /** After a download, every rate the source sent for a day of the range
      (the last one, if it sent the day twice) is in the result. */
  lemma DownloadShowsFetchedRates(store: Store, api: string -> Response<seq<RateRecord>>, u: UserInput, i: int)
    requires FetchCurrencyRates(api, u.selectedCurrency, DateToStr(u.startDate), DateToStr(u.endDate)).Success?
    requires var rows := FetchCurrencyRates(api, u.selectedCurrency, DateToStr(u.startDate), DateToStr(u.endDate)).value;
      0 <= i < |rows| && IsLastWrite(rows, i) && InRange(rows[i].date, u.startDate, u.endDate)
    ensures var rows := FetchCurrencyRates(api, u.selectedCurrency, DateToStr(u.startDate), DateToStr(u.endDate)).value;
      var r := DownloadFromNbpApi(store, api, u);
      r.result.Success? && Entry(rows[i].date, rows[i].rate) in r.result.value
  {
    var rows := FetchCurrencyRates(api, u.selectedCurrency, DateToStr(u.startDate), DateToStr(u.endDate)).value;
    SavedRowsAreRead(store, rows, u.selectedCurrency, u.startDate, u.endDate, i);
  }

  /**
   * The reconciliation branch of index: read the table for the user's
   * currency and range, compute the weekdays of the half-open window
   * start, ..., start+(difference-1), and download only when the table
   * does not already hold a row for each of them. On a hit neither the
   * table nor the rate source is touched and the first read is the result.
   */
  function Reconcile(store: Store, api: string -> Response<seq<RateRecord>>, u: UserInput): (r: Served)
    requires WellFormed(u)
    ensures var table := GetDataFromSqlTable(store, u.selectedCurrency, u.startDate, u.endDate);
      var days := BusinessDaysToCheck(u.startDateStr, DayDifference(u.startDate, u.endDate));
      && (days.Success? && DataInCache(table, days.value) ==> r == Served(store, Success(table)))
      && (days.Success? && !DataInCache(table, days.value) ==> r == DownloadFromNbpApi(store, api, u))
      && (days.Failure? ==> r == Served(store, Failure(days.error)))
  {
    var table := GetDataFromSqlTable(store, u.selectedCurrency, u.startDate, u.endDate);
    match GetDifferenceInDays(u.startDateStr, u.endDateStr)
    case Failure(e) =>
      Served(store, Failure(e))
    case Success(difference) =>
      match BusinessDaysToCheck(u.startDateStr, difference)
      case Failure(e) =>
        Served(store, Failure(e))
      case Success(days) =>
        if DataInCache(table, days) then Served(store, Success(table)) else DownloadFromNbpApi(store, api, u)
  }

  /** The window of a well-formed range never runs past the last date, so
      the weekdays to check are always computed. */
  lemma BusinessDaysOfRangeDefined(u: UserInput)
    requires WellFormed(u)
    ensures BusinessDaysToCheck(u.startDateStr, DayDifference(u.startDate, u.endDate)).Success?
  {
    OrdinalAtMostMax(u.endDate);
  }

  /** On a hit, the result has a row for every weekday of the window, and
      the rate source was not consulted: any other source gives the same. */
  lemma CacheHitCoversWindow(store: Store, api: string -> Response<seq<RateRecord>>,
                             other: string -> Response<seq<RateRecord>>, u: UserInput, d: Date)
    requires WellFormed(u)
    requires var table := GetDataFromSqlTable(store, u.selectedCurrency, u.startDate, u.endDate);
      var days := BusinessDaysToCheck(u.startDateStr, DayDifference(u.startDate, u.endDate));
      days.Success? && DataInCache(table, days.value)
    requires 0 <= DayDifference(u.startDate, d) < DayDifference(u.startDate, u.endDate) && DateNotWeekend(d)
    ensures Reconcile(store, api, u) == Reconcile(store, other, u)
    ensures Reconcile(store, api, u).store == store
    ensures exists k :: 0 <= k < |Reconcile(store, api, u).result.value|
                     && Reconcile(store, api, u).result.value[k].date == d
  {
    var table := GetDataFromSqlTable(store, u.selectedCurrency, u.startDate, u.endDate);
    var days := BusinessDaysToCheck(u.startDateStr, DayDifference(u.startDate, u.endDate)).value;
    assert ListsBusinessDays(u.startDate, 0, DayDifference(u.startDate, u.endDate), days);
    assert d in days;
  }

  /**
   * The POST branch of index: build the user input, validate it, then
   * reconcile. An input or validation error leaves the table unchanged
   * and is the result.
   */
  function HandlePost(store: Store, api: string -> Response<seq<RateRecord>>, form: Form): (r: Served)
    ensures NewUserInput(form).Failure? ==> r == Served(store, Failure(NewUserInput(form).error))
    ensures NewUserInput(form).Success? && Run(NewUserInput(form).value).Fail? ==>
      r == Served(store, Failure(Run(NewUserInput(form).value).error))
    ensures NewUserInput(form).Success? && Run(NewUserInput(form).value).Pass? ==>
      r == Reconcile(store, api, NewUserInput(form).value)
    ensures r.store != store ==> NewUserInput(form).Success? && Run(NewUserInput(form).value).Pass?
  {
    match NewUserInput(form)
    case Failure(e) =>
      Served(store, Failure(e))
    case Success(u) =>
      match Run(u)
      case Fail(e) => Served(store, Failure(e))
      case Pass => Reconcile(store, api, u)
  }

  /**
   * The branch as written: the day list holds the start text once per
   * weekday, and the text is compared with row tuples, so whenever the
   * window holds a weekday the table is downloaded again. A window without
   * a weekday has no day to check: then a non-empty first read is served
   * as it is, and an empty one is downloaded.
   */
  function ReconcileAsWritten(store: Store, api: string -> Response<seq<RateRecord>>, u: UserInput): (r: Served)
    requires WellFormed(u)
    ensures var days := BusinessDaysToCheck(u.startDateStr, DayDifference(u.startDate, u.endDate));
      days.Success? && |days.value| > 0 ==> r == DownloadFromNbpApi(store, api, u)
    ensures var table := GetDataFromSqlTable(store, u.selectedCurrency, u.startDate, u.endDate);
      var days := BusinessDaysToCheck(u.startDateStr, DayDifference(u.startDate, u.endDate));
      days.Success? && |days.value| == 0 ==>
        r == (if |table| > 0 then Served(store, Success(table)) else DownloadFromNbpApi(store, api, u))
    ensures var days := BusinessDaysToCheck(u.startDateStr, DayDifference(u.startDate, u.endDate));
      days.Failure? ==> r == Served(store, Failure(days.error))
  {
    var table := GetDataFromSqlTable(store, u.selectedCurrency, u.startDate, u.endDate);
    match GetDifferenceInDays(u.startDateStr, u.endDateStr)
    case Failure(e) =>
      Served(store, Failure(e))
    case Success(difference) =>
      match DefineAllDaysToCheck(u.startDateStr, difference)
      case Failure(e) =>
        Served(store, Failure(e))
      case Success(days) =>
        if DataAlreadyInCacheAsWritten(table, days) then Served(store, Success(table)) else DownloadFromNbpApi(store, api, u)
  }

  /** The POST branch of index as written: the same input handling and
      validation as HandlePost, then the as-written reconciliation. */
  function HandlePostAsWritten(store: Store, api: string -> Response<seq<RateRecord>>, form: Form): (r: Served)
    ensures NewUserInput(form).Failure? ==> r == Served(store, Failure(NewUserInput(form).error))
    ensures NewUserInput(form).Success? && Run(NewUserInput(form).value).Fail? ==>
      r == Served(store, Failure(Run(NewUserInput(form).value).error))
    ensures NewUserInput(form).Success? && Run(NewUserInput(form).value).Pass? ==>
      r == ReconcileAsWritten(store, api, NewUserInput(form).value)
    ensures r.store != store ==> NewUserInput(form).Success? && Run(NewUserInput(form).value).Pass?
  {
    match NewUserInput(form)
    case Failure(e) =>
      Served(store, Failure(e))
    case Success(u) =>
      match Run(u)
      case Fail(e) => Served(store, Failure(e))
      case Pass => ReconcileAsWritten(store, api, u)
  }

  /**
   * The corrected check never asks for the end date: when every weekday
   * before the end is stored, the first read is served even though the
   * end date has no row, so the result holds no rate for the end date.
   */
  lemma EndDateNotRequired(store: Store, api: string -> Response<seq<RateRecord>>, u: UserInput)
    requires WellFormed(u)
    requires Before(u.startDate, u.endDate) && DateNotWeekend(u.startDate)
    requires forall d: Date ::
      (0 <= DayDifference(u.startDate, d) < DayDifference(u.startDate, u.endDate) && DateNotWeekend(d))
        ==> Key(d, u.selectedCurrency) in store
    requires Key(u.endDate, u.selectedCurrency) !in store
    ensures Reconcile(store, api, u)
         == Served(store, Success(GetDataFromSqlTable(store, u.selectedCurrency, u.startDate, u.endDate)))
    ensures forall e :: e in Reconcile(store, api, u).result.value ==> e.date != u.endDate
  {
    var start, end, cur := u.startDate, u.endDate, u.selectedCurrency;
    BeforeIsOrdinalLess(start, end);
    BusinessDaysOfRangeDefined(u);
    var days := BusinessDaysToCheck(u.startDateStr, DayDifference(start, end)).value;
    StoredWindowIsHit(store, cur, start, end, days);
    ReadWithoutDate(store, cur, start, end, end);
  }

  /** When the table holds every weekday of the half-open window, and the
      window starts on a weekday, the read of the range is a hit. */
  lemma StoredWindowIsHit(store: Store, cur: string, start: Date, end: Date, days: seq<Date>)
    requires Before(start, end) && DateNotWeekend(start)
    requires ListsBusinessDays(start, 0, DayDifference(start, end), days)
    requires forall d: Date ::
      (0 <= DayDifference(start, d) < DayDifference(start, end) && DateNotWeekend(d)) ==> Key(d, cur) in store
    ensures DataInCache(GetDataFromSqlTable(store, cur, start, end), days)
  {
    var table := GetDataFromSqlTable(store, cur, start, end);
    BeforeIsOrdinalLess(start, end);
    forall i | 0 <= i < |days|
      ensures exists k :: 0 <= k < |table| && table[k].date == days[i]
    {
      var d := days[i];
      BeforeIsOrdinalLess(d, start);
      BeforeIsOrdinalLess(end, d);
      assert InRange(d, start, end) && Key(d, cur) in store;
      var k :| 0 <= k < |table| && table[k] == Entry(d, store[Key(d, cur)]);
    }
    assert Key(start, cur) in store;
    assert InRange(start, start, end);
    assert Entry(start, store[Key(start, cur)]) in table;
  }

  /** A read shows no row for a date the table does not hold. */
  lemma ReadWithoutDate(store: Store, cur: string, start: Date, end: Date, d: Date)
    requires Key(d, cur) !in store
    ensures forall e :: e in GetDataFromSqlTable(store, cur, start, end) ==> e.date != d
  {
    var table := GetDataFromSqlTable(store, cur, start, end);
    forall e | e in table
      ensures e.date != d
    {
      var k :| 0 <= k < |table| && table[k] == e;
      assert Selected(store, cur, start, end, table[k]);
    }
  }
}
