/** `targetHighlight`: the style of one row of the conditionally formatted
    table, from the row's price, its targets and the two tolerance inputs
    (`% within buy target`, `% within sell target`). */
module Highlight {
  import opened Watchlist

  const BuyStyle: string := "color: red; font-weight: bold"
  const SellStyle: string := "color: green; font-weight: bold"
  const DefaultStyle: string := ""

  datatype Class = NearBuy | NearSell | Neutral

  /** The buy band: a target is set and the price is at most the target
      raised by `buyPercent` percent. */
  predicate InBuyBand(row: Row, buyPercent: real)
  {
    row.buyTarget > 0.0 && row.price <= row.buyTarget * (1.0 + buyPercent / 100.0)
  }

  /** The sell band: a target is set and the price is at least the target
      lowered by `sellPercent` percent. */
  predicate InSellBand(row: Row, sellPercent: real)
  {
    row.sellTarget > 0.0 && row.price >= row.sellTarget * (1.0 - sellPercent / 100.0)
  }

  /** The if/elif/else of `targetHighlight`: buy is tested first. */
  function Classify(row: Row, buyPercent: real, sellPercent: real): (c: Class)
    ensures c == NearBuy <==> InBuyBand(row, buyPercent)
    ensures c == NearSell <==> !InBuyBand(row, buyPercent) && InSellBand(row, sellPercent)
    ensures c == Neutral <==> !InBuyBand(row, buyPercent) && !InSellBand(row, sellPercent)
  {
    if InBuyBand(row, buyPercent) then NearBuy
    else if InSellBand(row, sellPercent) then NearSell
    else Neutral
  }

  function Style(c: Class): string
  {
    match c
    case NearBuy => BuyStyle
    case NearSell => SellStyle
    case Neutral => DefaultStyle
  }

  /** The list `targetHighlight` returns for a row with `numCols` cells: one
      style, repeated for every cell. */
  function TargetHighlight(row: Row, numCols: nat, buyPercent: real, sellPercent: real): (r: seq<string>)
    ensures |r| == numCols
    ensures forall i :: 0 <= i < numCols ==> r[i] == Style(Classify(row, buyPercent, sellPercent))
  {
    seq(numCols, _ => Style(Classify(row, buyPercent, sellPercent)))
  }

  /** Buy wins: a row in both bands is styled as a buy. */
  lemma BuyPrecedence(row: Row, numCols: nat, buyPercent: real, sellPercent: real)
    requires InBuyBand(row, buyPercent) && InSellBand(row, sellPercent)
    ensures forall i :: 0 <= i < numCols ==> TargetHighlight(row, numCols, buyPercent, sellPercent)[i] == BuyStyle
  {
  }

  /** A row without a buy target is never styled as a buy, whatever its price. */
  lemma NoBuyTargetNoBuyStyle(row: Row, buyPercent: real, sellPercent: real)
    requires row.buyTarget <= 0.0
    ensures Classify(row, buyPercent, sellPercent) != NearBuy
  {
  }

  /** With zero tolerance the buy band is "at or below the target". */
  lemma ZeroBuyTolerance(row: Row, sellPercent: real)
    requires row.buyTarget > 0.0
    ensures Classify(row, 0.0, sellPercent) == NearBuy <==> row.price <= row.buyTarget
  {
  }

  /** With zero tolerance the sell band is "at or above the target". */
  lemma ZeroSellTolerance(row: Row, buyPercent: real)
    requires row.sellTarget > 0.0 && !InBuyBand(row, buyPercent)
    ensures Classify(row, buyPercent, 0.0) == NearSell <==> row.price >= row.sellTarget
  {
  }

  /** A wider buy tolerance keeps every row its narrower tolerance styled as a buy. */
  lemma BuyBandMonotone(row: Row, p: real, q: real)
    requires p <= q && InBuyBand(row, p)
    ensures InBuyBand(row, q)
  {
  }

  /** A wider sell tolerance keeps every row its narrower tolerance puts in the sell band. */
  lemma SellBandMonotone(row: Row, p: real, q: real)
    requires p <= q && InSellBand(row, p)
    ensures InSellBand(row, q)
  {
  }

  /** A row the alerts report as a buy (target above the price) is styled as
      a buy whenever its target is set and the tolerance is not negative. */
  lemma BuyAlertIsHighlighted(row: Row, buyPercent: real, sellPercent: real)
    requires row.buyTarget > row.price && row.buyTarget > 0.0 && buyPercent >= 0.0
    ensures Classify(row, buyPercent, sellPercent) == NearBuy
  {
  }

  /** A row the alerts report as a sell (target below the price) with a set
      target and a non-negative tolerance is styled, as a sell unless it is
      also in the buy band. */
  lemma SellAlertIsHighlighted(row: Row, buyPercent: real, sellPercent: real)
    requires row.sellTarget < row.price && row.sellTarget > 0.0 && sellPercent >= 0.0
    ensures Classify(row, buyPercent, sellPercent) != Neutral
  {
  }
}
