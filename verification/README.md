# Exchange-rate viewer: a Dafny model of its validation and cache logic

The exchange-rate viewer is a small Flask application. A user picks a
currency and a date range. The application validates the input. It then
reads the mid rates of that currency against PLN from a local SQLite
table. When that table does not yet hold every business day of the range,
it downloads the range from the NBP (National Bank of Poland) rates API,
saves it, and reads the table again.

This project models that core as pure Dafny functions over immutable
values. It has one module per source file:

- `Calendar` (calendar.dfy): Python's proleptic-Gregorian `date` for years
  1..9999. It covers `toordinal` (0001-01-01 is day 1, a Monday),
  comparison, `date + timedelta(days=n)` with its OverflowError, and
  `isoweekday`.
- `DatetimeOperations` (datetime_operations.py): the `YYYY-MM-DD` parser and
  printer, the day difference, the start-after-end and 93-day range tests,
  the weekend test, and the business days the cache must hold.
- `RateStore` (sqldb_communication.py): the table `rates(date, currency,
  rate)` with `UNIQUE(date, currency)`, as a map from (date, currency) to
  rate. `INSERT OR REPLACE` of a batch is a fold of map updates. The
  `SELECT … BETWEEN … ORDER BY date` is a date-ordered list of (date, rate).
- `TextOrder`: Python's `str` ordering and `list.sort()` on strings.
- `NbpApi` (nbp_api_communication.py): URL construction, the HTTP status
  classification (200 OK and 404 Not Found, sections 15.3.1 and 15.5.5 of
  RFC 9110), the sorted currency codes, and the conversion of rate records
  into table rows. The HTTP GET is a function parameter from URL to
  response.
- `UserInputs` (user_input_class.py) and `InputValidator`
  (input_validator_class.py): reading the form and the three ordered checks.
- `App` (app.py): `data_already_in_cache`, `download_from_nbp_api`, and the
  branch of `index` that chooses between the two.

Python exceptions are `Failure` values of `Wrappers.Result`, and their kinds
are the cases of `Errors.Error`. State is passed in and returned: the table
is an argument, and `App.Served` carries the table after a request with the
request's result.

Two behaviours of the code are easy to miss. The model keeps both:

- The days that must be cached are the weekdays of the half-open window
  start, …, start+(difference−1), as `range(days_difference)` produces. One
  might expect both ends to be included, but the end date itself is never
  required (`App.EndDateNotRequired`). For example, a Monday-to-Tuesday
  request is served from a table that holds only the Monday.
- When there is no day to check, a non-empty table counts as a hit. One
  might expect the table to be served as it is, but an empty table counts
  as a miss and triggers a download, even for a range that falls entirely
  on a weekend.

## Model

| member | source | states |
|---|---|---|
| `Calendar.AddDays` | exchange_rate_viewer/modules/datetime_operations.py:32-34 | `date + timedelta(days=n)` is defined exactly when the target ordinal lies in 1..3652059 (years 1..9999); the result's ordinal is the start's plus n |
| `Calendar.AddDaysThenDifference` | exchange_rate_viewer/modules/datetime_operations.py:32-34 | the date n days on is at distance n, and it is the only date at that distance |
| `Calendar.BeforeIsOrdinalLess` | exchange_rate_viewer/modules/datetime_operations.py:37-39 | Python's lexicographic date comparison agrees with ordinal order |
| `Calendar.IsoWeekday` | exchange_rate_viewer/modules/datetime_operations.py:47-49 | `isoweekday()` is in 1..7 and equals `(ordinal − 1) mod 7 + 1`, so 0001-01-01 is Monday |
| `Calendar.WeekdayRepeatsWeekly` | exchange_rate_viewer/modules/datetime_operations.py:47-49 | dates seven days apart fall on the same weekday |
| `DatetimeOperations.StrToDate` | exchange_rate_viewer/modules/datetime_operations.py:12-14 | parsing fails with the offending text unless it is a valid `YYYY-MM-DD` date |
| `DatetimeOperations.DateToStr` | exchange_rate_viewer/modules/datetime_operations.py:17-19 | the text is ten characters with dashes at positions 4 and 7 |
| `DatetimeOperations.StrToDateOfDateToStr` | exchange_rate_viewer/modules/datetime_operations.py:12-19 | parsing a formatted date gives the date back |
| `DatetimeOperations.DateToStrOfStrToDate` | exchange_rate_viewer/modules/datetime_operations.py:12-19 | every text that parses is the formatting of its date |
| `DatetimeOperations.GetDifferenceInDays` | exchange_rate_viewer/modules/datetime_operations.py:7-9 | succeeds exactly when both texts parse; the end text is parsed first, so its error wins |
| `DatetimeOperations.DifferenceAntisymmetric` | exchange_rate_viewer/modules/datetime_operations.py:7-9 | swapping start and end negates the difference |
| `DatetimeOperations.DifferenceExamples` | test/modules/test_datetime_operations.py:17-35 | 2021-01-01 to 2021-01-10 is 9 days, and the reverse is −9 |
| `DatetimeOperations.AddDaysToDate` | exchange_rate_viewer/modules/datetime_operations.py:32-34 | succeeds exactly when the target is in range, else OverflowError; the result lies the given number of days from the start |
| `DatetimeOperations.AddThenMeasure` | exchange_rate_viewer/modules/datetime_operations.py:32-34 | adding n days and measuring the difference through the texts gives n |
| `DatetimeOperations.AddDaysExamples` | test/modules/test_datetime_operations.py:41-59 | 2021-01-01 + 10 is 2021-01-11, and − 10 is 2020-12-22 across the year boundary |
| `DatetimeOperations.StartDateAfterEndDate` | exchange_rate_viewer/modules/datetime_operations.py:37-39 | true exactly when the day difference is negative; the start text is parsed first |
| `DatetimeOperations.MaxRangeExceeded` | exchange_rate_viewer/modules/datetime_operations.py:42-44 | true exactly when the difference is strictly above the maximum; its errors are those of the difference |
| `DatetimeOperations.MaxRangeBoundary` | exchange_rate_viewer/modules/config.py:22 | with MAX_DATE_RANGE = 93, a range of 93 days is not exceeded and 94 days is |
| `DatetimeOperations.DateNotWeekend` | exchange_rate_viewer/modules/datetime_operations.py:47-49 | true exactly for ISO weekdays 1..5 (Monday to Friday) |
| `DatetimeOperations.WeekendRepeatsWeekly` | exchange_rate_viewer/modules/datetime_operations.py:47-49 | the weekend test gives the same answer a week later |
| `DatetimeOperations.WeekendExamples` | test/modules/test_datetime_operations.py:65-81 | 2021-01-01 (Friday) is a weekday; 2021-01-02 (Saturday) is not |
| `DatetimeOperations.CollectBusinessDays` | exchange_rate_viewer/modules/datetime_operations.py:56-61 | the loop from i to n yields, in ascending order, exactly the weekdays among start+i … start+(n−1); OverflowError exactly when that window passes 9999-12-31 |
| `DatetimeOperations.CollectStartTexts` | exchange_rate_viewer/modules/datetime_operations.py:56-61 | the loop as written appends the start text once per weekday of the window; it has the same length and the same errors as the weekday list |
| `DatetimeOperations.DefineAllDaysToCheck` | exchange_rate_viewer/modules/datetime_operations.py:52-62 | as written: as many elements as the window has weekdays, every one equal to the start text; empty when the difference is ≤ 0 |
| `DatetimeOperations.BusinessDaysToCheck` | exchange_rate_viewer/modules/datetime_operations.py:52-62 | corrected: exactly the weekdays of the half-open window, ascending; empty for a difference ≤ 0; the parse error or OverflowError otherwise |
| `DatetimeOperations.BusinessDaysUnique` | exchange_rate_viewer/modules/datetime_operations.py:52-62 | a window has exactly one ascending list of its weekdays |
| `DatetimeOperations.BusinessDaysToCheckExample` | test/modules/test_datetime_operations.py:89-107 | from 2021-01-01 over 10 days the corrected list is 01-01, 01-04, 01-05, 01-06, 01-07, 01-08 |
| `DatetimeOperations.DefineAllDaysToCheckExample` | exchange_rate_viewer/modules/datetime_operations.py:60 | the same call as written returns six copies of "2021-01-01" |
| `RateStore.SaveCurrencyRatesToDb` | exchange_rate_viewer/modules/sqldb_communication.py:79-92 | after `INSERT OR REPLACE` of a batch, the table keys are the old keys plus the batch keys; a batch key holds the rate of its last write; every other key keeps its rate |
| `RateStore.LastWriteExists` | exchange_rate_viewer/modules/sqldb_communication.py:86-90 | every key a batch writes has a last write in the batch |
| `RateStore.SaveIsIdempotent` | exchange_rate_viewer/modules/sqldb_communication.py:86-90 | saving the same batch twice gives the same table as saving it once |
| `RateStore.SaveKeepsOtherCurrencies` | exchange_rate_viewer/modules/sqldb_communication.py:86-90 | a batch leaves the rows of every other currency as they were |
| `RateStore.GetDataFromSqlTable` | exchange_rate_viewer/modules/sqldb_communication.py:38-76 | the read returns exactly the table's rows for the currency with start ≤ date ≤ end, as (date, rate), in strictly ascending date order; so it is empty when start > end |
| `RateStore.DateTextOrder` | exchange_rate_viewer/modules/sqldb_communication.py:63-65 | the stored `YYYY-MM-DD` texts compare as their dates do, so text BETWEEN and ORDER BY are date order |
| `RateStore.BetweenOnTexts` | exchange_rate_viewer/modules/sqldb_communication.py:63 | `date BETWEEN start AND end` on the texts selects exactly the dates in the range |
| `RateStore.SavedRowsAreRead` | exchange_rate_viewer/modules/sqldb_communication.py:55-90 | after a save, a read over a range shows the last-written rate of every batch row of that currency inside the range |
| `TextOrder.SortStrings` | exchange_rate_viewer/modules/nbp_api_communication.py:87 | `list.sort()` on strings gives a sorted permutation of its input |
| `TextOrder.SortedUnique` | exchange_rate_viewer/modules/nbp_api_communication.py:87 | two sorted permutations of the same strings are equal, so the sorted list is determined |
| `NbpApi.CheckNbpResponse` | exchange_rate_viewer/modules/nbp_api_communication.py:32-48 | passes exactly for status 200; 404 fails with the 404 message; any other status fails with the general message |
| `NbpApi.ReceiveBody` | exchange_rate_viewer/modules/nbp_api_communication.py:13-48 | a missing response fails with the general message; otherwise the status check decides; the body is returned only for 200 |
| `NbpApi.GetAvailableCurrenciesFrom` | exchange_rate_viewer/modules/nbp_api_communication.py:80-89 | the codes come back sorted ascending, as a permutation of the records' codes, duplicates kept |
| `NbpApi.AvailableCurrenciesUnique` | exchange_rate_viewer/modules/nbp_api_communication.py:86-87 | the result is the one sorted arrangement of the codes |
| `NbpApi.AvailableCurrenciesExample` | test/modules/test_nbp_api_communication.py:135-146 | the THB, USD and XDR records give ["THB", "USD", "XDR"] |
| `NbpApi.FetchAvailableCurrencies` | exchange_rate_viewer/modules/nbp_api_communication.py:92-110 | succeeds exactly on a 200 reply from the tables URL, with the sorted codes; every failure (connection, 404 or other) carries the same message |
| `NbpApi.BuildUrl` | exchange_rate_viewer/modules/nbp_api_communication.py:113-121 | the URL starts with NBP_RATES_URL |
| `NbpApi.ParseRatesUrlOfBuildUrl` | exchange_rate_viewer/modules/nbp_api_communication.py:113-121 | with no '/' in the currency or the start text, the URL reads back as exactly its currency, start and end |
| `NbpApi.ConvertNbpResponseToListOfExchangeRates` | exchange_rate_viewer/modules/nbp_api_communication.py:129-138 | one row per record, in order; row i is (effectiveDate i, the requested currency, mid i) |
| `NbpApi.ConvertedRowKeys` | exchange_rate_viewer/modules/nbp_api_communication.py:129-138 | the converted rows write exactly the records' dates under the requested currency |
| `NbpApi.FetchCurrencyRates` | exchange_rate_viewer/modules/nbp_api_communication.py:141-170 | succeeds exactly on a 200 reply to the built URL; a missing response or a status other than 200 and 404 gives the general message; 404 gives its own message; on success the rows are the converted records |
| `UserInputs.GetObjFromRequestForm` | exchange_rate_viewer/modules/user_input_class.py:37-43 | a present field is returned verbatim, an empty text included; a missing field `k` fails with "Please select k." |
| `UserInputs.ConvertStringToDate` | exchange_rate_viewer/modules/user_input_class.py:45-47 | a parsed date formats back to its text; failure carries the text |
| `UserInputs.NewUserInput` | exchange_rate_viewer/modules/user_input_class.py:30-35 | succeeds exactly when the three fields are present and both dates parse; fields are kept verbatim and the dates are their parses; the first failing step in the order currency, start_date, end_date, start parse, end parse gives the error |
| `UserInputs.NewUserInputOfFormOf` | exchange_rate_viewer/modules/user_input_class.py:30-35 | reading the form of a well-formed input gives that input back |
| `UserInputs.EmptyCurrencyAccepted` | exchange_rate_viewer/modules/user_input_class.py:39-40 | an empty currency is not an error at this stage |
| `InputValidator.ValidateCurrency` | exchange_rate_viewer/modules/input_validator_class.py:32-36 | fails, with "Please select a currency.", exactly for the empty currency |
| `InputValidator.ValidateStartDate` | exchange_rate_viewer/modules/input_validator_class.py:38-44 | fails, with the start/end message, exactly when the start is after the end |
| `InputValidator.ValidateDateRange` | exchange_rate_viewer/modules/input_validator_class.py:46-52 | fails, with the 93-day message, exactly when the range spans more than 93 days |
| `InputValidator.Run` | exchange_rate_viewer/modules/input_validator_class.py:26-30 | passes exactly when the currency is non-empty, start ≤ end and the range is at most 93 days; otherwise the first failing check in the order currency, start date, range gives the message |
| `InputValidator.InvertedRangeNotTooLarge` | exchange_rate_viewer/modules/input_validator_class.py:38-52 | an inverted range never fails the range check |
| `InputValidator.RunOfForwardRange` | exchange_rate_viewer/modules/input_validator_class.py:46-52 | a forward range with a currency passes exactly when it spans at most 93 days, else fails with the range message |
| `InputValidator.RangeBoundary` | exchange_rate_viewer/modules/input_validator_class.py:46-52 | a range of exactly 93 days passes; one of 94 days fails with "Maximum date range is 93 calendar days." |
| `App.AllDaysPresent` | exchange_rate_viewer/app.py:39-42 | the loop finds no missing day exactly when every day to check is an element of the table |
| `App.DataAlreadyInCache` | exchange_rate_viewer/app.py:25-45 | for any element type: a hit exactly when the table is non-empty and contains every day to check, so an empty table is always a miss and a non-empty table with no days is a hit |
| `App.CacheHitMonotone` | exchange_rate_viewer/app.py:39-45 | extra table entries never turn a hit into a miss |
| `App.CacheExamples` | test/test_app.py:47-102 | the tests' three cases: all days present is a hit, one day missing is a miss, an empty table is a miss |
| `App.DataAlreadyInCacheAsWritten` | exchange_rate_viewer/app.py:35-45 | as called, with day texts against row tuples: a hit only when the table is non-empty and there is no day to check |
| `App.DataInCache` | exchange_rate_viewer/app.py:25-45 | corrected: a hit exactly when the table is non-empty and each day to check is the date of some row |
| `App.DownloadAsksForUserRange` | exchange_rate_viewer/app.py:53-58 | the download asks the rates URL of exactly the user's currency and dates |
| `App.DownloadFromNbpApi` | exchange_rate_viewer/app.py:48-63 | the fetch precedes the save: on failure the table is unchanged and the error is the fetch's; on success the table is the batch saved, and the result is the read of that table (its rows in range, ascending, complete) |
| `App.DownloadShowsFetchedRates` | exchange_rate_viewer/app.py:53-63 | every rate the source sent for a day of the range (its last one for that day) is in the download's result |
| `App.Reconcile` | exchange_rate_viewer/app.py:106-126 | corrected: on a hit the first read is the result and the table is untouched; on a miss the result is the download's |
| `App.BusinessDaysOfRangeDefined` | exchange_rate_viewer/app.py:118-124 | for a parsed range the weekday window never overflows |
| `App.CacheHitCoversWindow` | exchange_rate_viewer/app.py:110-126 | on a hit, the result has a row for every weekday of the window, the table is unchanged, and the rate source makes no difference |
| `App.HandlePost` | exchange_rate_viewer/app.py:92-126 | corrected: an input or validation error is the result and leaves the table unchanged; the table can change only for a valid input; a valid input goes to `App.Reconcile` |
| `App.HandlePostAsWritten` | exchange_rate_viewer/app.py:92-126 | as written: the same input and validation errors, each leaving the table unchanged; a valid input goes to `App.ReconcileAsWritten` |
| `App.EndDateNotRequired` | exchange_rate_viewer/app.py:106-126 | corrected: when every weekday before the end is stored and the start is a weekday, the first read is served, even though the end date has no row |
| `App.ReconcileAsWritten` | exchange_rate_viewer/app.py:106-126 | as written: a window with at least one weekday always triggers a download; a window without one serves a non-empty first read unchanged and downloads when it is empty; a failed date computation is the result and leaves the table unchanged |

## Left out

- Network I/O: `connect_with_nbp_api` and its 60-second timeout are modelled as a function from URL to `Response`, either no response or a status with a decoded body.
- JSON decoding (`get_list_of_currency_dicts_from`, `convert_response_to_json`) is a library call. The model starts from the decoded records. It takes a record's `effectiveDate` as a date, because the rate source sends `YYYY-MM-DD` texts.
- SQLite plumbing is left out: connections, `with conn:` transactions, and executing the DDL of `create_table`. Only the table's `UNIQUE(date, currency)` constraint is kept, as the key of the map. A read is a pure function of the table, so it cannot modify it.
- Flask is left out: templates, the GET branch, the chart rendered after the request (plot.py), and the mapping of exceptions to rendered error messages, including the broad `except` of `index`. `App.HandlePost` returns the error value instead.
- app.py:97 catches only `InvalidInputError`. A `ValueError` from `strptime` in `UserInput.__init__` therefore escapes `index` as an HTTP 500. `App.HandlePost` and `App.HandlePostAsWritten` return `MalformedDate` as a result, like a validation error. The model does not tell an unhandled exception from a rendered error message.
- The form is a `map<string, string>`. Werkzeug's `ImmutableMultiDict[k]` returns the first of several values for a repeated field, and the map drops the repeats.
- The call to `fetch_available_currencies` at the top of `index` is left out. That function is modelled on its own as `NbpApi.FetchAvailableCurrencies`.
- `index` calls `datetime_operations.yesterday()`, which does not exist. It is left out.
- `index` passes the parsed `date` objects to `get_difference_in_days` and `define_all_days_to_check`, which call `strptime` on them and would raise TypeError. `App.Reconcile` and `App.ReconcileAsWritten` pass the form's date texts instead.
- `NBPConnectionError.__init__` requires a `response` argument, but every `raise` passes only `message`, which would itself raise TypeError. `Errors.NbpConnection` carries only the intended message.
- The tests call `app.get_dates_from` and pass dates to `data_already_in_cache` under another parameter name. Neither matches app.py. `RateStore.DatesOf` takes the place of that projection.
- test/modules/test_datetime_operations.py:19-22 and 91-94 pass `date` objects to `get_difference_in_days` and `define_all_days_to_check`. As written, `strptime` would raise TypeError on them. `DatetimeOperations.DifferenceExamples` and `DatetimeOperations.BusinessDaysToCheckExample` pass the dates' texts instead.
- Wall clock: `today_and_yesterday` is left out.
- `get_max_date_range` wraps 93 in a `timedelta`. The model compares whole days, which is what a difference of two dates holds.
- Rates are opaque `real` values with no arithmetic. Floating point is not modelled.
- Logging, `print`, and the JSON log formatting are left out.
- DatetimeOperations.StrToDate: accepts only the zero-padded ten-character form with ASCII digits. `strptime("%Y-%m-%d")` also accepts three forms that are rejected here: unpadded months and days such as `2021-1-5`, a space-padded day such as `2021-01- 5`, and non-ASCII Unicode decimal digits.
- DatetimeOperations.DateToStr: always pads the year to four digits. `strftime("%Y")` on glibc does not pad years below 1000.

## Findings

| source | as written | input that shows it | evidently intended | confidence | as-written member | corrected member |
|---|---|---|---|---|---|---|
| exchange_rate_viewer/modules/datetime_operations.py:60 | for each weekday of the window the loop appends `start_date`, not `new_date` | `define_all_days_to_check("2021-01-01", 10)` returns six copies of "2021-01-01" | the weekdays themselves: 2021-01-01, 01-04, 01-05, 01-06, 01-07, 01-08, as test/modules/test_datetime_operations.py:98-105 expects | high, not executed | DatetimeOperations.DefineAllDaysToCheck, DatetimeOperations.DefineAllDaysToCheckExample | DatetimeOperations.BusinessDaysToCheck, DatetimeOperations.BusinessDaysToCheckExample |
| exchange_rate_viewer/app.py:39-40 | `day not in currency_table` compares each day with the (date, rate) tuples the SELECT returns, which are never equal to a day | a table holding rows for 2021-01-01..03 and days ["2021-01-01"]: a miss, so every request with a weekday in its window downloads again | compare the days with the rows' dates, the `get_dates_from` projection that test/test_app.py:14-102 uses | high, not executed | App.DataAlreadyInCacheAsWritten, App.ReconcileAsWritten, App.HandlePostAsWritten | App.DataInCache, App.Reconcile, App.CacheHitCoversWindow, App.HandlePost |
