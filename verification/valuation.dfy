/** The per-lot valuation table (app.py:58-80): one row per lot, in store
    order, whose price-dependent figures are all absent when the lot's price
    could not be fetched. */
module Valuation {
  import opened Optional
  import opened Holdings
  import opened Prices

  /** One table row: the lot's own fields, then "Current Price",
      "Market Value", "Gain/Loss ($)" and "Gain/Loss (%)". */
  datatype Row = Row(
    ticker: string,
    shares: real,
    costBasis: real,
    price: Option<real>,
    marketValue: Option<real>,
    gainLoss: Option<real>,
    gainLossPct: Option<real>)

  /** What the lot cost in total: cost per share times shares. A lot bought
      for nothing, or holding no shares, cost nothing; a lot with positive
      shares at a positive cost basis cost something. */
  function CostTotal(shares: real, costBasis: real): (c: real)
    ensures shares >= 0.0 && costBasis >= 0.0 ==> c >= 0.0
    ensures shares > 0.0 && costBasis > 0.0 ==> c > 0.0
    ensures costBasis == 0.0 || shares == 0.0 ==> c == 0.0
  {
    costBasis * shares
  }

  /** Valuing one lot. With a price, market value is price times shares, the
      gain is what market value exceeds the cost total by, and the gain
      percentage is that gain relative to the cost total, or exactly 0 when
      the cost total is not positive. Without a price, all three are absent
      rather than 0. */
  function ValueRow(h: Holding, price: Option<real>): (row: Row)
    ensures row.ticker == h.ticker && row.shares == h.shares && row.costBasis == h.costBasis
    ensures row.price == price
    ensures row.marketValue.Some? <==> price.Some?
    ensures row.gainLoss.Some? <==> price.Some?
    ensures row.gainLossPct.Some? <==> price.Some?
    ensures price.Some? ==> row.marketValue.value == price.value * h.shares
    ensures price.Some? ==> row.gainLoss.value + CostTotal(h.shares, h.costBasis) == row.marketValue.value
    ensures price.Some? && CostTotal(h.shares, h.costBasis) > 0.0 ==>
      row.gainLossPct.value * CostTotal(h.shares, h.costBasis) == row.gainLoss.value * 100.0
    ensures price.Some? && CostTotal(h.shares, h.costBasis) <= 0.0 ==> row.gainLossPct.value == 0.0
  {
    match price
    case Some(p) =>
      var marketValue := p * h.shares;
      var cost := CostTotal(h.shares, h.costBasis);
      var gain := marketValue - cost;
      var pct := if cost > 0.0 then gain / cost * 100.0 else 0.0;
      Row(h.ticker, h.shares, h.costBasis, price, Some(marketValue), Some(gain), Some(pct))
    case None =>
      Row(h.ticker, h.shares, h.costBasis, None, None, None, None)
  }

  /** The whole table: row `i` values lot `i` at its ticker's price. */
  function ValueRows(hs: seq<Holding>, pd: PriceData): (rows: seq<Row>)
    ensures |rows| == |hs|
    ensures forall i :: 0 <= i < |hs| ==> rows[i] == ValueRow(hs[i], PriceOf(pd, hs[i].ticker))
  {
    if hs == [] then []
    else [ValueRow(hs[0], PriceOf(pd, hs[0].ticker))] + ValueRows(hs[1..], pd)
  }

  /** The table of a longer store is the table of its parts, side by side. */
  lemma ValueRowsConcat(a: seq<Holding>, b: seq<Holding>, pd: PriceData)
    ensures ValueRows(a + b, pd) == ValueRows(a, pd) + ValueRows(b, pd)
  {
    var l := ValueRows(a + b, pd);
    var r := ValueRows(a, pd) + ValueRows(b, pd);
    forall i | 0 <= i < |l|
      ensures l[i] == r[i]
    {
      if i >= |a| {
        assert (a + b)[i] == b[i - |a|];
      }
    }
  }

  /** With a known price on a positive number of shares, the lot shows a gain
      exactly when the price is above the cost per share, and a loss exactly
      when it is below. */
  lemma GainSignFollowsPrice(h: Holding, p: real)
    requires h.shares > 0.0
    ensures ValueRow(h, Some(p)).gainLoss.value > 0.0 <==> p > h.costBasis
    ensures ValueRow(h, Some(p)).gainLoss.value < 0.0 <==> p < h.costBasis
  {
    var g := ValueRow(h, Some(p)).gainLoss.value;
    assert g == (p - h.costBasis) * h.shares;
  }

  /** The gain percentage is the per-share price move relative to the cost per
      share: it does not depend on how many shares the lot holds. */
  lemma GainPctIsPriceMove(h: Holding, p: real)
    requires h.shares > 0.0 && h.costBasis > 0.0
    ensures ValueRow(h, Some(p)).gainLossPct.value == (p - h.costBasis) / h.costBasis * 100.0
  {
    var row := ValueRow(h, Some(p));
    var cost := h.costBasis * h.shares;
    assert cost > 0.0;
    assert row.gainLoss.value == (p - h.costBasis) * h.shares;
    assert row.gainLoss.value / cost == (p - h.costBasis) / h.costBasis;
  }

  /** A lot bought at no cost never divides by zero: its percentage is 0
      whatever the price. */
  lemma ZeroCostLotHasZeroPct(h: Holding, p: real)
    requires h.costBasis == 0.0
    ensures ValueRow(h, Some(p)).gainLossPct == Some(0.0)
    ensures ValueRow(h, Some(p)).gainLoss == Some(p * h.shares)
  {
    var row := ValueRow(h, Some(p));
    assert CostTotal(h.shares, h.costBasis) == 0.0;
    assert row.gainLoss.value == p * h.shares;
  }

  /** 10 shares bought at 150 and now at 200: worth 2000 against a cost of
      1500, a gain of 500, which is 100/3 (33.33) percent. */
  lemma ExampleKnownPrice()
    ensures ValueRow(Holding("AAPL", 10.0, 150.0), Some(200.0))
      == Row("AAPL", 10.0, 150.0, Some(200.0), Some(2000.0), Some(500.0), Some(100.0 / 3.0))
  {
  }

}
