/** The decision logic of `fnYFinJSON`: given the already parsed quote
    response, pick one field of the first result, or a sentinel string. */
module Quote {
  import opened Common

  /** One quote record of the response: field name to value. */
  type Quote = map<string, Cell>

  /** The parsed response. `None` when the path `quoteResponse.result` is
      missing; otherwise the list of results, which may be empty. */
  type Response = Option<seq<Quote>>

  const EnterTicker: Cell := Text("enter a ticker")
  const NotAvailable: Cell := Text("N/A")

  /** Whether the response holds a first result that carries `field`. */
  predicate HasField(resp: Response, field: string)
  {
    resp.Some? && |resp.value| > 0 && field in resp.value[0]
  }

  /** `fnYFinJSON(stock, field)` on a response already fetched. */
  function FieldValue(stock: string, resp: Response, field: string): (r: Cell)
    ensures stock == "" ==> r == EnterTicker
    ensures stock != "" && !HasField(resp, field) ==> r == NotAvailable
    ensures stock != "" && HasField(resp, field) ==> r == resp.value[0][field]
  {
    if stock == "" then EnterTicker
    else match resp
      case None => NotAvailable
      case Some(results) =>
        if |results| == 0 then NotAvailable
        else if field in results[0] then results[0][field]
        else NotAvailable
  }

  /** The company name `add_ticker` stores: `displayName`, unless that
      lookup gave "N/A", in which case `shortName`. */
  function CompanyName(stock: string, resp: Response): (r: Cell)
    ensures FieldValue(stock, resp, "displayName") != NotAvailable ==>
              r == FieldValue(stock, resp, "displayName")
    ensures FieldValue(stock, resp, "displayName") == NotAvailable ==>
              r == FieldValue(stock, resp, "shortName")
  {
    var display := FieldValue(stock, resp, "displayName");
    if display == NotAvailable then FieldValue(stock, resp, "shortName") else display
  }

  /** Every lookup is either one of the two sentinels or a value taken from
      the first result of the response. */
  lemma FieldValueSource(stock: string, resp: Response, field: string)
    ensures var r := FieldValue(stock, resp, field);
            r == EnterTicker || r == NotAvailable ||
            (resp.Some? && |resp.value| > 0 && field in resp.value[0] && r == resp.value[0][field])
  {
  }

  /** An empty ticker never reaches the response: the name is the prompt. */
  lemma EmptyTickerName(resp: Response)
    ensures CompanyName("", resp) == EnterTicker
  {
  }

  /** The name falls back to `shortName` exactly when the first result has no
      display name, or its display name is literally "N/A"; with neither name
      present the name is "N/A". */
  lemma CompanyNameCases(stock: string, resp: Response)
    requires stock != ""
    ensures HasField(resp, "displayName") && resp.value[0]["displayName"] != NotAvailable ==>
              CompanyName(stock, resp) == resp.value[0]["displayName"]
    ensures (!HasField(resp, "displayName") || resp.value[0]["displayName"] == NotAvailable) &&
            HasField(resp, "shortName") ==>
              CompanyName(stock, resp) == resp.value[0]["shortName"]
    ensures !HasField(resp, "displayName") && !HasField(resp, "shortName") ==>
              CompanyName(stock, resp) == NotAvailable
  {
  }
}
