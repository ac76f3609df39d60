/** Model of exchange_rate_viewer/modules/user_input_class.py: reading the
    three fields of the submitted form and parsing the two dates. */
module UserInputs {
  import opened Wrappers
  import opened Errors
  import opened Calendar
  import opened DatetimeOperations

  /** The submitted form: field name to value. */
  type Form = map<string, string>

  const CurrencyField: string := "currency"
  const StartDateField: string := "start_date"
  const EndDateField: string := "end_date"

  /** A constructed UserInput: the three texts as submitted and the two
      parsed dates. */
  datatype UserInput = UserInput(
    selectedCurrency: string,
    startDateStr: string,
    endDateStr: string,
    startDate: Date,
    endDate: Date)

  /** The dates are the parses of their texts, as the constructor makes them. */
  predicate WellFormed(u: UserInput) {
    && StrToDate(u.startDateStr) == Success(u.startDate)
    && StrToDate(u.endDateStr) == Success(u.endDate)
  }

  /** The message for a field the form lacks. */
  function MissingFieldMessage(objectName: string): string {
    "Please select " + objectName + "."
  }

  /** get_obj_from_request_form: the field's value, verbatim (an empty
      text included), or InvalidInputError when the field is absent. */
  function GetObjFromRequestForm(form: Form, objectName: string): (r: Result<string, Error>)
    ensures r.Success? <==> objectName in form
    ensures r.Success? ==> r.value == form[objectName]
    ensures r.Failure? ==> r.error == InvalidInput(MissingFieldMessage(objectName))
  {
    if objectName in form then Success(form[objectName]) else Failure(InvalidInput(MissingFieldMessage(objectName)))
  }

  /** convert_string_to_date. */
  function ConvertStringToDate(s: string): (r: Result<Date, Error>)
    ensures r.Success? ==> DateToStr(r.value) == s
    ensures r.Failure? ==> r.error == MalformedDate(s)
  {
    var d := StrToDate(s);
    if d.Success? then DateToStrOfStrToDate(s); d else d
  }

  /**
   * UserInput.__init__: reads currency, start_date and end_date in that
   * order, then parses the start date and then the end date; the first
   * step that fails decides the error. A present but empty currency is
   * accepted here.
   */
  function NewUserInput(form: Form): (r: Result<UserInput, Error>)
    ensures r.Success? <==>
      && CurrencyField in form && StartDateField in form && EndDateField in form
      && StrToDate(form[StartDateField]).Success? && StrToDate(form[EndDateField]).Success?
    ensures r.Success? ==>
      && WellFormed(r.value)
      && r.value.selectedCurrency == form[CurrencyField]
      && r.value.startDateStr == form[StartDateField]
      && r.value.endDateStr == form[EndDateField]
    ensures CurrencyField !in form ==>
      r == Failure(InvalidInput(MissingFieldMessage(CurrencyField)))
    ensures CurrencyField in form && StartDateField !in form ==>
      r == Failure(InvalidInput(MissingFieldMessage(StartDateField)))
    ensures CurrencyField in form && StartDateField in form && EndDateField !in form ==>
      r == Failure(InvalidInput(MissingFieldMessage(EndDateField)))
    ensures CurrencyField in form && StartDateField in form && EndDateField in form
            && StrToDate(form[StartDateField]).Failure? ==>
      r == Failure(MalformedDate(form[StartDateField]))
    ensures CurrencyField in form && StartDateField in form && EndDateField in form
            && StrToDate(form[StartDateField]).Success? && StrToDate(form[EndDateField]).Failure? ==>
      r == Failure(MalformedDate(form[EndDateField]))
  {
    var selectedCurrency :- GetObjFromRequestForm(form, CurrencyField);
    var startDateStr :- GetObjFromRequestForm(form, StartDateField);
    var endDateStr :- GetObjFromRequestForm(form, EndDateField);
    var startDate :- ConvertStringToDate(startDateStr);
    var endDate :- ConvertStringToDate(endDateStr);
    Success(UserInput(selectedCurrency, startDateStr, endDateStr, startDate, endDate))
  }

  /** The form a well-formed user input was read from. */
  function FormOf(u: UserInput): Form {
    map[CurrencyField := u.selectedCurrency, StartDateField := u.startDateStr, EndDateField := u.endDateStr]
  }

  /** Reading the form of a well-formed input gives that input back. */
  lemma NewUserInputOfFormOf(u: UserInput)
    requires WellFormed(u)
    ensures NewUserInput(FormOf(u)) == Success(u)
  {
  }

  /** A submission with an empty currency still yields a user input. */
  lemma EmptyCurrencyAccepted(d: Date, e: Date)
    ensures NewUserInput(map[CurrencyField := "", StartDateField := DateToStr(d), EndDateField := DateToStr(e)])
         == Success(UserInput("", DateToStr(d), DateToStr(e), d, e))
  {
    StrToDateOfDateToStr(d);
    StrToDateOfDateToStr(e);
  }
}
