/** The data `checkAlerts` builds its alert text from: the rows whose target
    has been crossed, strictly and without tolerance, and for each the
    percentage it reports. */
module Alerts {
  import opened Common
  import opened Watchlist

  /** `df[df['Buy Target'] > df['Price']]` */
  function BuyAlerts(rows: seq<Row>): seq<Row>
  {
    if rows == [] then []
    else (if rows[0].buyTarget > rows[0].price then [rows[0]] else []) + BuyAlerts(rows[1..])
  }

  /** `df[df['Sell Target'] < df['Price']]`: no test that a target is set. */
  function SellAlerts(rows: seq<Row>): seq<Row>
  {
    if rows == [] then []
    else (if rows[0].sellTarget < rows[0].price then [rows[0]] else []) + SellAlerts(rows[1..])
  }

  /** A reported percentage: a ratio, or the division by a zero target. */
  datatype Percent = Ratio(value: real) | DivisionByZero

  /** `price / sellTarget - 1` */
  function SellPercent(price: real, sellTarget: real): Percent
  {
    if sellTarget == 0.0 then DivisionByZero else Ratio(price / sellTarget - 1.0)
  }

  /** `(price / buyTarget - 1) * -1` */
  function BuyPercent(price: real, buyTarget: real): Percent
  {
    if buyTarget == 0.0 then DivisionByZero else Ratio((price / buyTarget - 1.0) * -1.0)
  }

  /** What one line of alert text shows: ticker, price, target, percentage. */
  datatype Alert = Alert(ticker: string, price: real, target: real, percent: Percent)

  function SellAlertOf(row: Row): Alert
  {
    Alert(row.ticker, row.price, row.sellTarget, SellPercent(row.price, row.sellTarget))
  }

  function BuyAlertOf(row: Row): Alert
  {
    Alert(row.ticker, row.price, row.buyTarget, BuyPercent(row.price, row.buyTarget))
  }

  /** Buy alerts are exactly the rows whose buy target is above the price. */
  lemma {:induction false} BuyAlertsMembers(rows: seq<Row>, r: Row)
    ensures r in BuyAlerts(rows) <==> r in rows && r.buyTarget > r.price
  {
    if rows != [] {
      BuyAlertsMembers(rows[1..], r);
      assert rows == [rows[0]] + rows[1..];
    }
  }

  /** Sell alerts are exactly the rows whose sell target is below the price. */
  lemma {:induction false} SellAlertsMembers(rows: seq<Row>, r: Row)
    ensures r in SellAlerts(rows) <==> r in rows && r.sellTarget < r.price
  {
    if rows != [] {
      SellAlertsMembers(rows[1..], r);
      assert rows == [rows[0]] + rows[1..];
    }
  }

  /** The buy selection keeps row order: it distributes over concatenation. */
  lemma {:induction false} BuyAlertsAppend(a: seq<Row>, b: seq<Row>)
    ensures BuyAlerts(a + b) == BuyAlerts(a) + BuyAlerts(b)
  {
    if a == [] {
      assert a + b == b;
    } else {
      assert (a + b)[1..] == a[1..] + b;
      BuyAlertsAppend(a[1..], b);
    }
  }

  /** The sell selection keeps row order: it distributes over concatenation. */
  lemma {:induction false} SellAlertsAppend(a: seq<Row>, b: seq<Row>)
    ensures SellAlerts(a + b) == SellAlerts(a) + SellAlerts(b)
  {
    if a == [] {
      assert a + b == b;
    } else {
      assert (a + b)[1..] == a[1..] + b;
      SellAlertsAppend(a[1..], b);
    }
  }

  /** A row is in both lists exactly when the price lies strictly between
      the two targets. */
  lemma InBothLists(rows: seq<Row>, r: Row)
    ensures r in BuyAlerts(rows) && r in SellAlerts(rows) <==>
            r in rows && r.sellTarget < r.price < r.buyTarget
  {
    BuyAlertsMembers(rows, r);
    SellAlertsMembers(rows, r);
  }

  /** A sell alert with a set target reports a positive percentage. */
  lemma SellPercentPositive(price: real, sellTarget: real)
    requires sellTarget < price && sellTarget > 0.0
    ensures SellPercent(price, sellTarget).Ratio? && SellPercent(price, sellTarget).value > 0.0
  {
  }

  /** A buy alert with a positive target reports a positive percentage. */
  lemma BuyPercentPositive(price: real, buyTarget: real)
    requires buyTarget > price && buyTarget > 0.0
    ensures BuyPercent(price, buyTarget).Ratio? && BuyPercent(price, buyTarget).value > 0.0
  {
  }

  /** A buy alert on a non-negative price always has a positive target, so
      its percentage is a positive ratio. */
  lemma BuyAlertOnPricedRow(price: real, buyTarget: real)
    requires buyTarget > price >= 0.0
    ensures BuyPercent(price, buyTarget).Ratio? && BuyPercent(price, buyTarget).value > 0.0
  {
  }

  /** A row without a sell target and with a positive price is reported as a
      sell alert, and its percentage divides by zero. */
  lemma ZeroSellTargetAlerts(rows: seq<Row>, r: Row)
    requires r in rows && r.sellTarget == 0.0 && r.price > 0.0
    ensures r in SellAlerts(rows) && SellAlertOf(r).percent == DivisionByZero
  {
  }

  /** The loop over the sell alerts: one line per selected row, in row order. */
  method SellAlertLines(rows: seq<Row>) returns (alerts: seq<Alert>)
    ensures |alerts| == |SellAlerts(rows)|
    ensures forall k :: 0 <= k < |alerts| ==> alerts[k] == SellAlertOf(SellAlerts(rows)[k])
  {
    var selected := SellAlerts(rows);
    alerts := [];
    for i := 0 to |selected|
      invariant |alerts| == i
      invariant forall k :: 0 <= k < i ==> alerts[k] == SellAlertOf(selected[k])
    {
      var row := selected[i];
      var percentOver := SellPercent(row.price, row.sellTarget);
      alerts := alerts + [Alert(row.ticker, row.price, row.sellTarget, percentOver)];
    }
  }

  /** The loop over the buy alerts: one line per selected row, in row order. */
  method BuyAlertLines(rows: seq<Row>) returns (alerts: seq<Alert>)
    ensures |alerts| == |BuyAlerts(rows)|
    ensures forall k :: 0 <= k < |alerts| ==> alerts[k] == BuyAlertOf(BuyAlerts(rows)[k])
  {
    var selected := BuyAlerts(rows);
    alerts := [];
    for i := 0 to |selected|
      invariant |alerts| == i
      invariant forall k :: 0 <= k < i ==> alerts[k] == BuyAlertOf(selected[k])
    {
      var row := selected[i];
      var percentOver := BuyPercent(row.price, row.buyTarget);
      alerts := alerts + [Alert(row.ticker, row.price, row.buyTarget, percentOver)];
    }
  }

  /** Every buy line of a table of non-negative prices reports a positive
      percentage. */
  lemma BuyLinesPositive(rows: seq<Row>, alerts: seq<Alert>)
    requires forall r :: r in rows ==> r.price >= 0.0
    requires |alerts| == |BuyAlerts(rows)|
    requires forall k :: 0 <= k < |alerts| ==> alerts[k] == BuyAlertOf(BuyAlerts(rows)[k])
    ensures forall k :: 0 <= k < |alerts| ==> alerts[k].percent.Ratio? && alerts[k].percent.value > 0.0
  {
    forall k | 0 <= k < |alerts|
      ensures alerts[k].percent.Ratio? && alerts[k].percent.value > 0.0
    {
      var r := BuyAlerts(rows)[k];
      BuyAlertsMembers(rows, r);
      BuyAlertOnPricedRow(r.price, r.buyTarget);
    }
  }

  /** Every sell line of a table whose sell targets are all set reports a
      positive percentage. */
  lemma SellLinesPositive(rows: seq<Row>, alerts: seq<Alert>)
    requires forall r :: r in rows ==> r.sellTarget > 0.0
    requires |alerts| == |SellAlerts(rows)|
    requires forall k :: 0 <= k < |alerts| ==> alerts[k] == SellAlertOf(SellAlerts(rows)[k])
    ensures forall k :: 0 <= k < |alerts| ==> alerts[k].percent.Ratio? && alerts[k].percent.value > 0.0
  {
    forall k | 0 <= k < |alerts|
      ensures alerts[k].percent.Ratio? && alerts[k].percent.value > 0.0
    {
      var r := SellAlerts(rows)[k];
      SellAlertsMembers(rows, r);
      SellPercentPositive(r.price, r.sellTarget);
    }
  }

  /** Order follows the dict: adding a new priced ticker leaves the earlier
      alerts as they were and puts the new ticker's alerts, if any, last. */
  lemma NewTickerAlertsLast(b: Book, t: string, rec: Record)
    requires WellFormed(b) && AllPriced(b) && t !in b.entries && Priced(rec)
    ensures AllPriced(Put(b, t, rec))
    ensures BuyAlerts(TableRows(Put(b, t, rec))) == BuyAlerts(TableRows(b)) + BuyAlerts([RowOf(t, rec)])
    ensures SellAlerts(TableRows(Put(b, t, rec))) == SellAlerts(TableRows(b)) + SellAlerts([RowOf(t, rec)])
  {
    PutNewRowLast(b, t, rec);
    BuyAlertsAppend(TableRows(b), [RowOf(t, rec)]);
    SellAlertsAppend(TableRows(b), [RowOf(t, rec)]);
  }

  /** The alert lines `checkAlerts` writes: the sell lines, then the buy lines. */
  datatype AlertLines = AlertLines(sell: seq<Alert>, buy: seq<Alert>)

  /** `checkAlerts` on the table built from the dict. An empty dict gives a
      table whose only column is `index`, so `df['Buy Target']` raises
      `KeyError`; otherwise both selections and both loops run. */
  method CheckAlerts(b: Book) returns (r: Result<AlertLines, EngineError>)
    requires AllPriced(b)
    ensures b.order == [] <==> r.Err?
    ensures r.Err? ==> r.error == KeyError("Buy Target")
    ensures r.Ok? ==>
              && |r.value.sell| == |SellAlerts(TableRows(b))|
              && (forall k :: 0 <= k < |r.value.sell| ==> r.value.sell[k] == SellAlertOf(SellAlerts(TableRows(b))[k]))
              && |r.value.buy| == |BuyAlerts(TableRows(b))|
              && (forall k :: 0 <= k < |r.value.buy| ==> r.value.buy[k] == BuyAlertOf(BuyAlerts(TableRows(b))[k]))
  {
    if b.order == [] {
      return Err(KeyError("Buy Target"));
    }
    var rows := TableRows(b);
    var sell := SellAlertLines(rows);
    var buy := BuyAlertLines(rows);
    r := Ok(AlertLines(sell, buy));
  }
}
