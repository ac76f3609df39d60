/** Model of exchange_rate_viewer/modules/nbp_api_communication.py: the
    request URLs, the classification of the rate source's HTTP status codes,
    the sorted list of currency codes and the conversion of rate records
    into rows for the local table. The HTTP GET itself is a function
    parameter from URL to response, so the model stays pure. */
module NbpApi {
  import opened Wrappers
  import opened Errors
  import opened Calendar
  import opened DatetimeOperations
  import opened RateStore
  import opened TextOrder

  /** config.NBP_RATES_URL: rates of one currency over a range of dates. */
  const NbpRatesUrl: string := "https://api.nbp.pl/api/exchangerates/rates/a/"

  /** config.NBP_TABLES_URL: the current table of all currencies. */
  const NbpTablesUrl: string := "https://api.nbp.pl/api/exchangerates/tables/a"

  const AvailableCurrenciesError: string :=
    "Failed to fetch available currencies from NBP API, check connection with NBP API."

  const CurrencyRatesError: string :=
    "Failed to fetch currency exchange rates from NBP API, check connection with NBP API."

  const CurrencyRates404Error: string :=
    "Error 404: No data found for selected currency and/or time frame."

  /** What a GET produced: no response at all (requests raised
      RequestException), or a status code with the decoded JSON body. */
  datatype Response<P> = ConnectionFailure | Reply(statusCode: int, body: P)

  /** One element of the "rates" list of the tables endpoint. */
  datatype CurrencyRecord = CurrencyRecord(currency: string, code: string, mid: Rate)

  /** One element of the "rates" list of the rates endpoint. */
  datatype RateRecord = RateRecord(no: string, effectiveDate: Date, mid: Rate)

  // ---------------------------------------------------------------------
  // Status classification

  /**
   * check_nbp_response: 200 (OK, section 15.3.1 of RFC 9110) passes;
   * 404 (Not Found, section 15.5.5 of RFC 9110) fails with its own
   * message; every other status fails with the general message.
   */
  function CheckNbpResponse(statusCode: int, generalErrorMessage: string, error404Message: string): (r: Outcome<Error>)
    ensures r.Pass? <==> statusCode == 200
    ensures statusCode == 404 ==> r == Fail(NbpConnection(error404Message))
    ensures statusCode != 200 && statusCode != 404 ==> r == Fail(NbpConnection(generalErrorMessage))
  {
    if statusCode == 404 then
      Fail(NbpConnection(error404Message))
    else if statusCode != 200 then
      Fail(NbpConnection(generalErrorMessage))
    else
      Pass
  }

  /**
   * connect_with_nbp_api followed by check_nbp_response: the body of a
   * successful reply, or the error its absence or its status calls for.
   */
  function ReceiveBody<P>(response: Response<P>, generalErrorMessage: string, error404Message: string): (r: Result<P, Error>)
    ensures r.Success? <==> response.Reply? && response.statusCode == 200
    ensures r.Success? ==> r.value == response.body
    ensures response.ConnectionFailure? ==> r == Failure(NbpConnection(generalErrorMessage))
    ensures response.Reply? && response.statusCode == 404 ==> r == Failure(NbpConnection(error404Message))
    ensures response.Reply? && response.statusCode != 200 && response.statusCode != 404 ==>
              r == Failure(NbpConnection(generalErrorMessage))
  {
    match response
    case ConnectionFailure =>
      Failure(NbpConnection(generalErrorMessage))
    case Reply(status, body) =>
      match CheckNbpResponse(status, generalErrorMessage, error404Message)
      case Fail(e) => Failure(e)
      case Pass => Success(body)
  }

  // ---------------------------------------------------------------------
  // Available currencies

  /** The "code" of every record, in order. */
  function CodesOf(rates: seq<CurrencyRecord>): (r: seq<string>)
    ensures |r| == |rates|
    ensures forall i :: 0 <= i < |r| ==> r[i] == rates[i].code
  {
    seq(|rates|, i requires 0 <= i < |rates| => rates[i].code)
  }

  /** get_available_currencies_from: the codes, sorted ascending; every
      code is kept, duplicates included. */
  function GetAvailableCurrenciesFrom(rates: seq<CurrencyRecord>): (r: seq<string>)
    ensures Sorted(r)
    ensures multiset(r) == multiset(CodesOf(rates))
  {
    SortStrings(CodesOf(rates))
  }

  /** The sorted code list is the only sorted arrangement of the codes. */
  lemma AvailableCurrenciesUnique(rates: seq<CurrencyRecord>, codes: seq<string>)
    requires Sorted(codes) && multiset(codes) == multiset(CodesOf(rates))
    ensures GetAvailableCurrenciesFrom(rates) == codes
  {
    SortedUnique(GetAvailableCurrenciesFrom(rates), codes);
  }

  /** The codes of the THB, USD and XDR records come back as they are. */
  lemma AvailableCurrenciesExample(a: Rate, b: Rate, c: Rate)
    ensures GetAvailableCurrenciesFrom([
              CurrencyRecord("bat (Tajlandia)", "THB", a),
              CurrencyRecord("dolar amerykanski", "USD", b),
              CurrencyRecord("SDR (MFW)", "XDR", c)]) == ["THB", "USD", "XDR"]
  {
    var rates := [
      CurrencyRecord("bat (Tajlandia)", "THB", a),
      CurrencyRecord("dolar amerykanski", "USD", b),
      CurrencyRecord("SDR (MFW)", "XDR", c)];
    var codes := ["THB", "USD", "XDR"];
    assert CodesOf(rates) == codes;
    assert StrLe("THB", "USD") && StrLe("USD", "XDR") && StrLe("THB", "XDR");
    AvailableCurrenciesUnique(rates, codes);
  }

  /**
   * fetch_available_currencies: one message for every failure, whether
   * the connection, a 404 or any other status; on success the sorted
   * codes of the table's records.
   */
  function FetchAvailableCurrencies(api: string -> Response<seq<CurrencyRecord>>): (r: Result<seq<string>, Error>)
    ensures r.Failure? ==> r.error == NbpConnection(AvailableCurrenciesError)
    ensures r.Success? <==> api(NbpTablesUrl).Reply? && api(NbpTablesUrl).statusCode == 200
    ensures r.Success? ==> Sorted(r.value) && multiset(r.value) == multiset(CodesOf(api(NbpTablesUrl).body))
  {
    var rates :- ReceiveBody(api(NbpTablesUrl), AvailableCurrenciesError, AvailableCurrenciesError);
    Success(GetAvailableCurrenciesFrom(rates))
  }

  // ---------------------------------------------------------------------
  // Currency rates

  /** build_url: `NBP_RATES_URL + f"{currency}/{start_date}/{end_date}"`. */
  function BuildUrl(currency: string, startDate: string, endDate: string): (r: string)
    ensures |r| >= |NbpRatesUrl| && r[..|NbpRatesUrl|] == NbpRatesUrl
  {
    NbpRatesUrl + currency + "/" + startDate + "/" + endDate
  }

  /** Splits a text at its first '/'. */
  function SplitAtSlash(s: string): (r: Option<(string, string)>)
    ensures r.None? <==> '/' !in s
    ensures r.Some? ==> '/' !in r.value.0 && s == r.value.0 + "/" + r.value.1
  {
    if |s| == 0 then
      None
    else if s[0] == '/' then
      Some(([], s[1..]))
    else
      match SplitAtSlash(s[1..])
      case None => None
      case Some(parts) => Some(([s[0]] + parts.0, parts.1))
  }

  /** A text without '/' followed by '/' splits exactly there. */
  lemma {:induction false} SplitAtSlashOfJoin(x: string, y: string)
    requires '/' !in x
    ensures SplitAtSlash(x + "/" + y) == Some((x, y))
  {
    if |x| > 0 {
      assert (x + "/" + y)[1..] == x[1..] + "/" + y;
      SplitAtSlashOfJoin(x[1..], y);
      assert x == [x[0]] + x[1..];
    }
  }

  /** Reads currency, start and end back out of a rates URL. */
  function ParseRatesUrl(url: string): (r: Option<(string, string, string)>)
    ensures r.Some? ==> url == BuildUrl(r.value.0, r.value.1, r.value.2)
  {
    if |url| < |NbpRatesUrl| || url[..|NbpRatesUrl|] != NbpRatesUrl then
      None
    else
      var path := url[|NbpRatesUrl|..];
      assert url == NbpRatesUrl + path;
      match SplitAtSlash(path)
      case None => None
      case Some(first) =>
        match SplitAtSlash(first.1)
        case None => None
        case Some(second) =>
          JoinPath(url, path, first.0, first.1, second.0, second.1);
          Some((first.0, second.0, second.1))
  }

  /** Reassembles a rates URL from the prefix and the two splits of its path. */
  lemma JoinPath(url: string, path: string, currency: string, rest: string, startDate: string, endDate: string)
    requires url == NbpRatesUrl + path
    requires path == currency + "/" + rest && rest == startDate + "/" + endDate
    ensures url == BuildUrl(currency, startDate, endDate)
  {
  }

  /** A rates URL names its currency and dates unambiguously when the
      currency and the start date hold no '/'. */
  lemma ParseRatesUrlOfBuildUrl(currency: string, startDate: string, endDate: string)
    requires '/' !in currency && '/' !in startDate
    ensures ParseRatesUrl(BuildUrl(currency, startDate, endDate)) == Some((currency, startDate, endDate))
  {
    var url := BuildUrl(currency, startDate, endDate);
    assert url[|NbpRatesUrl|..] == currency + "/" + (startDate + "/" + endDate);
    SplitAtSlashOfJoin(currency, startDate + "/" + endDate);
    SplitAtSlashOfJoin(startDate, endDate);
  }

  /** A formatted date holds digits and dashes only. */
  lemma NoSlashInDate(d: Date)
    ensures '/' !in DateToStr(d)
  {
    var s := DateToStr(d);
    assert s == PadNatural(d.year, 4) + "-" + PadNatural(d.month, 2) + "-" + PadNatural(d.day, 2);
    forall i | 0 <= i < |s|
      ensures s[i] != '/'
    {
      if i < 4 {
        assert s[i] == PadNatural(d.year, 4)[i];
      } else if 4 < i < 7 {
        assert s[i] == PadNatural(d.month, 2)[i - 5];
      } else if 7 < i {
        assert s[i] == PadNatural(d.day, 2)[i - 8];
      }
    }
  }

  /** convert_nbp_response_to_list_of_exchange_rates: one row per record,
      in order, each carrying the record's date and mid rate and the
      requested currency. */
  function ConvertNbpResponseToListOfExchangeRates(records: seq<RateRecord>, currency: string): (r: seq<Row>)
    ensures |r| == |records|
    ensures forall i :: 0 <= i < |r| ==> r[i] == Row(records[i].effectiveDate, currency, records[i].mid)
  {
    if |records| == 0 then
      []
    else
      var init := ConvertNbpResponseToListOfExchangeRates(records[..|records| - 1], currency);
      var last := records[|records| - 1];
      init + [Row(last.effectiveDate, currency, last.mid)]
  }

  /** The rows a conversion yields write exactly the records' dates for
      the requested currency. */
  lemma ConvertedRowKeys(records: seq<RateRecord>, currency: string)
    ensures BatchKeys(ConvertNbpResponseToListOfExchangeRates(records, currency))
         == set i | 0 <= i < |records| :: Key(records[i].effectiveDate, currency)
  {
    var rows := ConvertNbpResponseToListOfExchangeRates(records, currency);
    forall k | k in BatchKeys(rows)
      ensures k in set i | 0 <= i < |records| :: Key(records[i].effectiveDate, currency)
    {
      var i :| 0 <= i < |rows| && KeyOf(rows[i]) == k;
      assert k == Key(records[i].effectiveDate, currency);
    }
    forall k | k in set i | 0 <= i < |records| :: Key(records[i].effectiveDate, currency)
      ensures k in BatchKeys(rows)
    {
      var i :| 0 <= i < |records| && k == Key(records[i].effectiveDate, currency);
      assert KeyOf(rows[i]) == k;
    }
  }

  /**
   * fetch_currency_rates: asks the rates URL of the currency and range;
   * a missing response or a status other than 200 or 404 fails with the
   * general message, 404 with its own message; a 200 reply becomes one
   * row per rate record.
   */
  function FetchCurrencyRates(api: string -> Response<seq<RateRecord>>, currency: string, startDate: string, endDate: string)
    : (r: Result<seq<Row>, Error>)
    ensures var response := api(BuildUrl(currency, startDate, endDate));
      && (r.Success? <==> response.Reply? && response.statusCode == 200)
      && (response.ConnectionFailure? ==> r == Failure(NbpConnection(CurrencyRatesError)))
      && (response.Reply? && response.statusCode == 404 ==> r == Failure(NbpConnection(CurrencyRates404Error)))
      && (response.Reply? && response.statusCode != 200 && response.statusCode != 404 ==>
            r == Failure(NbpConnection(CurrencyRatesError)))
      && (r.Success? ==> |r.value| == |response.body|)
      && (r.Success? ==> forall i :: 0 <= i < |r.value| ==>
            r.value[i] == Row(response.body[i].effectiveDate, currency, response.body[i].mid))
  {
    var url := BuildUrl(currency, startDate, endDate);
    var records :- ReceiveBody(api(url), CurrencyRatesError, CurrencyRates404Error);
    Success(ConvertNbpResponseToListOfExchangeRates(records, currency))
  }
}
