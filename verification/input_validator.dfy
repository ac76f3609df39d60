/** Model of exchange_rate_viewer/modules/input_validator_class.py: three
    checks of a constructed user input, run in a fixed order, each failing
    with its own message. */
module InputValidator {
  import opened Wrappers
  import opened Errors
  import opened Calendar
  import opened DatetimeOperations
  import opened UserInputs

  const CurrencyMessage: string := "Please select a currency."
  const StartDateMessage: string := "'Start Date' cannot be after 'End Date'."
  const DateRangeMessage: string := "Maximum date range is 93 calendar days."

  /** validate_currency: an empty currency text is rejected. */
  function ValidateCurrency(u: UserInput): (r: Outcome<Error>)
    ensures r.Pass? <==> |u.selectedCurrency| > 0
    ensures r.Fail? ==> r.error == InvalidInput(CurrencyMessage)
  {
    if u.selectedCurrency == "" then Fail(InvalidInput(CurrencyMessage)) else Pass
  }

  /** validate_start_date: a start after the end is rejected; a start
      equal to the end is allowed. */
  function ValidateStartDate(u: UserInput): (r: Outcome<Error>)
    requires WellFormed(u)
    ensures r.Pass? <==> !Before(u.endDate, u.startDate)
    ensures r.Fail? ==> r.error == InvalidInput(StartDateMessage)
  {
    match StartDateAfterEndDate(u.startDateStr, u.endDateStr)
    case Failure(e) => Fail(e)
    case Success(after) =>
      BeforeIsOrdinalLess(u.endDate, u.startDate);
      if after then Fail(InvalidInput(StartDateMessage)) else Pass
  }

  /** validate_date_range: more than MAX_DATE_RANGE days from start to end
      is rejected; exactly that many is allowed. */
  function ValidateDateRange(u: UserInput): (r: Outcome<Error>)
    requires WellFormed(u)
    ensures r.Pass? <==> DayDifference(u.startDate, u.endDate) <= MaxDateRange
    ensures r.Fail? ==> r.error == InvalidInput(DateRangeMessage)
  {
    match MaxRangeExceeded(u.startDateStr, u.endDateStr, MaxDateRange)
    case Failure(e) => Fail(e)
    case Success(exceeded) =>
      if exceeded then Fail(InvalidInput(DateRangeMessage)) else Pass
  }

  /**
   * InputValidator.run: the input passes exactly when the currency is
   * non-empty, the start is not after the end and the range is at most
   * 93 days; otherwise the first failing check, in the order currency,
   * start date, range, gives the message.
   */
  function Run(u: UserInput): (r: Outcome<Error>)
    requires WellFormed(u)
    ensures r.Pass? <==>
      |u.selectedCurrency| > 0 && !Before(u.endDate, u.startDate)
      && DayDifference(u.startDate, u.endDate) <= MaxDateRange
    ensures |u.selectedCurrency| == 0 ==> r == Fail(InvalidInput(CurrencyMessage))
    ensures |u.selectedCurrency| > 0 && Before(u.endDate, u.startDate) ==>
      r == Fail(InvalidInput(StartDateMessage))
    ensures |u.selectedCurrency| > 0 && !Before(u.endDate, u.startDate)
            && DayDifference(u.startDate, u.endDate) > MaxDateRange ==>
      r == Fail(InvalidInput(DateRangeMessage))
  {
    if ValidateCurrency(u).Fail? then
      ValidateCurrency(u)
    else if ValidateStartDate(u).Fail? then
      ValidateStartDate(u)
    else
      ValidateDateRange(u)
  }

  /** An inverted range is never reported as too large: a start after the
      end makes the difference negative. */
  lemma InvertedRangeNotTooLarge(u: UserInput)
    requires WellFormed(u) && Before(u.endDate, u.startDate)
    ensures ValidateDateRange(u).Pass?
  {
    BeforeIsOrdinalLess(u.endDate, u.startDate);
  }

  /** A forward range of formatted dates with a currency passes exactly
      when it spans at most 93 days. */
  lemma RunOfForwardRange(currency: string, start: Date, end: Date)
    requires |currency| > 0 && 0 <= DayDifference(start, end)
    ensures var u := UserInput(currency, DateToStr(start), DateToStr(end), start, end);
      && WellFormed(u)
      && Run(u) == if DayDifference(start, end) <= MaxDateRange then Pass else Fail(InvalidInput(DateRangeMessage))
  {
    StrToDateOfDateToStr(start);
    StrToDateOfDateToStr(end);
    BeforeIsOrdinalLess(end, start);
  }

  /** From a start date, a range of exactly 93 days passes and one of 94
      days fails with the range message. */
  lemma RangeBoundary(currency: string, start: Date, end93: Date, end94: Date)
    requires |currency| > 0
    requires DayDifference(start, end93) == MaxDateRange && DayDifference(start, end94) == MaxDateRange + 1
    ensures var u := UserInput(currency, DateToStr(start), DateToStr(end93), start, end93);
      WellFormed(u) && Run(u) == Pass
    ensures var u := UserInput(currency, DateToStr(start), DateToStr(end94), start, end94);
      WellFormed(u) && Run(u) == Fail(InvalidInput(DateRangeMessage))
  {
    RunOfForwardRange(currency, start, end93);
    RunOfForwardRange(currency, start, end94);
  }
}
