/**
 * The currency endpoint (convert_currency, POST /api/v1/currency/convert):
 * normalise both codes, ask the rates service for the table of the source
 * currency, and classify what comes back before multiplying.
 *
 * The HTTP client is a parameter: a function from the URL to what the request
 * produced. Amounts and rates are exact reals; floating-point rounding and the
 * four-decimal text formatting are not modelled.
 */
module Currency {
  import opened Wrappers
  import opened Text
  import opened Http

  const RatesService: string := "https://open.er-api.com/v6/latest/"

  /** One entry of the "rates" table: a JSON number, or any other JSON value. */
  datatype RateValue = Number(amount: real) | NotNumber

  /** The decoded body of the rates service's answer. */
  datatype RatesBody =
    | NotJsonObject
    | JsonObject(result: Option<string>, rates: Option<map<string, RateValue>>)

  /**
   * What the GET request produced: a transport error (httpx.RequestError),
   * another client exception that is not a RequestError (an invalid URL, say,
   * when a code holds a control character), or a status and a body.
   */
  datatype Fetched = TransportError | ClientError | Response(status: int, body: RatesBody)

  /** The JSON answer: the amount and code asked for, the rate used, and the target code. */
  datatype Quote = Quote(value: real, fromCode: string, rate: real, toCode: string)
  {
    /** The converted amount, value * rates[to_cur], over exact reals. */
    function Converted(): real {
      value * rate
    }
  }

  /** code.upper().strip() */
  function NormalizeCode(code: string): (c: string)
    ensures forall i :: 0 <= i < |c| ==> !IsLowerLetter(c[i])
    ensures c != [] ==> !IsSpace(c[0]) && !IsSpace(c[|c| - 1])
  {
    UpperStripShape(code);
    var c := UpperStrip(code);
    c
  }

  /** The URL of the rates table for a normalised source code. */
  function RatesUrl(fromCode: string): string {
    RatesService + fromCode
  }

  /** Distinct source codes ask for distinct tables. */
  lemma RatesUrlInjective(a: string, b: string)
    requires RatesUrl(a) == RatesUrl(b)
    ensures a == b
  {
    assert a == RatesUrl(a)[|RatesService|..];
    assert b == RatesUrl(b)[|RatesService|..];
  }

  /** The body holds "result": "success" and a "rates" table. */
  predicate IsRatesTable(body: RatesBody) {
    body.JsonObject? && body.result == Some("success") && body.rates.Some?
  }

  /**
   * How convert_currency classifies the answer for the table of one currency:
   * a failed request and a status other than 200 give 502; a client exception
   * that is not a RequestError and a body that is not a JSON object end as
   * uncaught errors (500); a body without result "success" or without "rates"
   * gives 502; a target code missing from the rates gives 400; a rate that is
   * not a number makes the multiplication raise (500); otherwise the target's
   * rate.
   */
  function Classify(answer: Fetched, toCode: string): (r: Result<real, Reason>)
    ensures answer.TransportError? ==> r == Failure(RatesUnavailable)
    ensures answer.ClientError? ==> r == Failure(Unhandled)
    ensures answer.Response? && answer.status != 200 ==> r == Failure(RatesServiceError)
    ensures answer.Response? && answer.status == 200 && answer.body.NotJsonObject? ==> r == Failure(Unhandled)
    ensures answer.Response? && answer.status == 200 && answer.body.JsonObject? && !IsRatesTable(answer.body) ==>
      r == Failure(RatesMalformed)
    ensures answer.Response? && answer.status == 200 && IsRatesTable(answer.body) ==>
      if toCode !in answer.body.rates.value then r == Failure(UnknownCurrency(toCode))
      else if answer.body.rates.value[toCode].Number? then r == Success(answer.body.rates.value[toCode].amount)
      else r == Failure(Unhandled)
  {
    match answer
    case TransportError => Failure(RatesUnavailable)
    case ClientError => Failure(Unhandled)
    case Response(status, body) =>
      if status != 200 then Failure(RatesServiceError)
      else
        match body
        case NotJsonObject => Failure(Unhandled)
        case JsonObject(result, rates) =>
          if result != Some("success") || rates.None? then Failure(RatesMalformed)
          else if toCode !in rates.value then Failure(UnknownCurrency(toCode))
          else
            match rates.value[toCode]
            case Number(rate) => Success(rate)
            case NotNumber => Failure(Unhandled)
  }

  /**
   * convert_currency: normalise both codes, fetch the table of the source
   * code, classify the answer, and multiply the amount by the target's rate.
   */
  function ConvertCurrency(value: real, fromCurrency: string, toCurrency: string, fetch: string -> Fetched)
    : (r: Result<Quote, Reason>)
    ensures
      var fromCode := NormalizeCode(fromCurrency);
      var toCode := NormalizeCode(toCurrency);
      var c := Classify(fetch(RatesUrl(fromCode)), toCode);
      && (c.Failure? ==> r == Failure(c.error))
      && (c.Success? ==> r == Success(Quote(value, fromCode, c.value, toCode)))
  {
    var fromCode := NormalizeCode(fromCurrency);
    var toCode := NormalizeCode(toCurrency);
    match Classify(fetch(RatesUrl(fromCode)), toCode)
    case Failure(e) => Failure(e)
    case Success(rate) => Success(Quote(value, fromCode, rate, toCode))
  }

  // ---------------------------------------------------------------------------
  // Properties of the classification
  // ---------------------------------------------------------------------------

  /**
   * Every failure of the rates service itself is a 502, a missing target
   * currency is the caller's fault (400), and a client exception, an
   * unreadable body or a rate that is not a number is a 500; the answer is
   * accepted exactly when it is a rates table holding a number for the target.
   */
  lemma ClassifyStatuses(answer: Fetched, toCode: string)
    ensures
      var r := Classify(answer, toCode);
      && (r.Success? <==> answer.Response? && answer.status == 200 && IsRatesTable(answer.body)
                          && toCode in answer.body.rates.value && answer.body.rates.value[toCode].Number?)
      && (r.Failure? && r.error.Status() == 502 <==>
            answer.TransportError? || (answer.Response? && (answer.status != 200 ||
              (answer.body.JsonObject? && !IsRatesTable(answer.body)))))
      && (r.Failure? && r.error.Status() == 400 <==>
            answer.Response? && answer.status == 200 && IsRatesTable(answer.body)
            && toCode !in answer.body.rates.value)
      && (r.Failure? && r.error.Status() == 400 ==> r == Failure(UnknownCurrency(toCode)))
      && (r.Failure? && r.error.Status() == 500 <==>
            answer.ClientError? ||
            (answer.Response? && answer.status == 200 &&
              (answer.body.NotJsonObject? ||
               (IsRatesTable(answer.body) && toCode in answer.body.rates.value &&
                answer.body.rates.value[toCode].NotNumber?))))
  {
  }

  /**
   * Codes are normalised: a code in any letter case with any surrounding
   * white space asks for the same table and names the same target as the
   * bare upper-case code.
   */
  lemma CodesIgnoreCaseAndPadding(
    value: real, pre1: string, from: string, post1: string, pre2: string, to: string, post2: string,
    fetch: string -> Fetched)
    requires AllSpace(pre1) && AllSpace(post1) && AllSpace(pre2) && AllSpace(post2)
    requires from != [] && !IsSpace(from[0]) && !IsSpace(from[|from| - 1])
    requires to != [] && !IsSpace(to[0]) && !IsSpace(to[|to| - 1])
    ensures NormalizeCode(pre1 + from + post1) == Upper(from)
    ensures ConvertCurrency(value, pre1 + from + post1, pre2 + to + post2, fetch) ==
            ConvertCurrency(value, Upper(from), Upper(to), fetch)
  {
    UpperStripPadded(pre1, from, post1);
    UpperStripPadded(pre2, to, post2);
    UpperNormalIsFixed(from);
    UpperNormalIsFixed(to);
  }

  /** An upper-cased word without surrounding white space is its own normal form. */
  lemma UpperNormalIsFixed(w: string)
    requires w != [] && !IsSpace(w[0]) && !IsSpace(w[|w| - 1])
    ensures NormalizeCode(Upper(w)) == Upper(w)
  {
    var u := Upper(w);
    assert Upper(u) == u by {
      UpperOfUpper(u);
    }
    assert !IsSpace(u[0]) && !IsSpace(u[|u| - 1]);
    assert StripLeft(u) == u;
    assert StripRight(u) == u;
  }

  /** Normalising a code twice changes nothing. */
  lemma NormalizeCodeIdempotent(code: string)
    ensures NormalizeCode(NormalizeCode(code)) == NormalizeCode(code)
  {
    UpperStripIdempotent(code);
  }

  /** Only one request is made, to the table of the normalised source code, and nothing else influences the answer. */
  lemma OnlyTheSourceTableMatters(
    value: real, fromCurrency: string, toCurrency: string, f1: string -> Fetched, f2: string -> Fetched)
    requires f1(RatesUrl(NormalizeCode(fromCurrency))) == f2(RatesUrl(NormalizeCode(fromCurrency)))
    ensures ConvertCurrency(value, fromCurrency, toCurrency, f1) == ConvertCurrency(value, fromCurrency, toCurrency, f2)
  {
    var url := RatesUrl(NormalizeCode(fromCurrency));
    assert Classify(f1(url), NormalizeCode(toCurrency)) == Classify(f2(url), NormalizeCode(toCurrency));
  }
}
