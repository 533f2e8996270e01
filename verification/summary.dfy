/** The portfolio summary (app.py:84-88). The column sums follow pandas'
    `Series.sum`, which is taken as given here: missing entries are skipped,
    and an empty or all-missing column sums to 0. */
module Summary {
  import opened Optional
  import opened Holdings
  import opened Prices
  import opened Valuation

  datatype Totals = Totals(totalValue: real, totalCost: real, totalGain: real, totalGainPct: real)

  function Sum(xs: seq<real>): real {
    if xs == [] then 0.0 else xs[0] + Sum(xs[1..])
  }

  lemma {:induction false} SumConcat(a: seq<real>, b: seq<real>)
    ensures Sum(a + b) == Sum(a) + Sum(b)
  {
    if a == [] {
      assert a + b == b;
    } else {
      assert (a + b)[1..] == a[1..] + b;
      SumConcat(a[1..], b);
    }
  }

  /** The "Market Value" column with its missing entries skipped, in row
      order: nothing is dropped exactly when every row is priced, and
      nothing is left exactly when no row is. */
  function KnownValues(rows: seq<Row>): (vs: seq<real>)
    ensures |vs| <= |rows|
    ensures |vs| == |rows| <==> forall i :: 0 <= i < |rows| ==> rows[i].marketValue.Some?
    ensures vs == [] <==> forall i :: 0 <= i < |rows| ==> rows[i].marketValue.None?
  {
    if rows == [] then []
    else
      var rest := KnownValues(rows[1..]);
      assert forall i :: 1 <= i < |rows| ==> rows[i] == rows[1..][i - 1];
      match rows[0].marketValue
      case Some(v) => [v] + rest
      case None => rest
  }

  /** The values kept are the rows' own market values: each is some row's,
      and when every row is priced they are all the rows' values, in row
      order. */
  lemma {:induction false} KnownValuesContents(rows: seq<Row>)
    ensures forall v :: v in KnownValues(rows) ==>
      exists i :: 0 <= i < |rows| && rows[i].marketValue == Some(v)
    ensures |KnownValues(rows)| == |rows| ==>
      forall i :: 0 <= i < |rows| ==> KnownValues(rows)[i] == rows[i].marketValue.value
  {
    if rows != [] {
      KnownValuesContents(rows[1..]);
      forall v | v in KnownValues(rows)
        ensures exists i :: 0 <= i < |rows| && rows[i].marketValue == Some(v)
      {
        if v !in KnownValues(rows[1..]) {
          assert rows[0].marketValue == Some(v);
        } else {
          var j :| 0 <= j < |rows[1..]| && rows[1..][j].marketValue == Some(v);
          assert rows[j + 1].marketValue == Some(v);
        }
      }
    }
  }

  lemma {:induction false} KnownValuesConcat(a: seq<Row>, b: seq<Row>)
    ensures KnownValues(a + b) == KnownValues(a) + KnownValues(b)
  {
    if a == [] {
      assert a + b == b;
    } else {
      assert (a + b)[0] == a[0] && (a + b)[1..] == a[1..] + b;
      KnownValuesConcat(a[1..], b);
    }
  }

  /** `df["Market Value"].sum()`: only priced rows contribute, so a table
      with no priced row (an empty one included) is worth 0. */
  function TotalValue(rows: seq<Row>): (v: real)
    ensures (forall i :: 0 <= i < |rows| ==> rows[i].marketValue.None?) ==> v == 0.0
  {
    Sum(KnownValues(rows))
  }

  /** `(df["Cost Basis"] * df["Shares"]).sum()`: every row contributes,
      whether or not it has a price. */
  function TotalCost(rows: seq<Row>): real {
    if rows == [] then 0.0 else CostTotal(rows[0].shares, rows[0].costBasis) + TotalCost(rows[1..])
  }

  /** With no negative share count or cost basis, as the intake form
      guarantees, the total cost is not negative. */
  lemma {:induction false} TotalCostNonNegative(rows: seq<Row>)
    requires forall i :: 0 <= i < |rows| ==> rows[i].shares >= 0.0 && rows[i].costBasis >= 0.0
    ensures TotalCost(rows) >= 0.0
  {
    if rows != [] {
      assert forall i :: 0 <= i < |rows[1..]| ==> rows[1..][i] == rows[i + 1];
      TotalCostNonNegative(rows[1..]);
    }
  }

  lemma {:induction false} TotalCostConcat(a: seq<Row>, b: seq<Row>)
    ensures TotalCost(a + b) == TotalCost(a) + TotalCost(b)
  {
    if a == [] {
      assert a + b == b;
    } else {
      assert (a + b)[0] == a[0] && (a + b)[1..] == a[1..] + b;
      TotalCostConcat(a[1..], b);
    }
  }

  /** The summary metrics. The total gain is total value minus total cost,
      except that it is forced to 0 whenever the total value is 0; the total
      gain percentage is relative to the total cost, or 0 when that is not
      positive. */
  function Summarize(rows: seq<Row>): (s: Totals)
    ensures s.totalValue == Sum(KnownValues(rows))
    ensures s.totalCost == TotalCost(rows)
    ensures s.totalValue == 0.0 ==> s.totalGain == 0.0
    ensures s.totalValue != 0.0 ==> s.totalGain + s.totalCost == s.totalValue
    ensures s.totalCost > 0.0 ==> s.totalGainPct * s.totalCost == s.totalGain * 100.0
    ensures s.totalCost <= 0.0 ==> s.totalGainPct == 0.0
  {
    var value := TotalValue(rows);
    var cost := TotalCost(rows);
    var gain := if value != 0.0 then value - cost else 0.0;
    var pct := if cost > 0.0 then gain / cost * 100.0 else 0.0;
    Totals(value, cost, gain, pct)
  }

  /** A one-lot table whose lot has price `p` is worth its market value. */
  lemma {:induction false} PricedLotValue(h: Holding, pd: PriceData, p: real)
    requires PriceOf(pd, h.ticker) == Some(p)
    ensures TotalValue(ValueRows([h], pd)) == p * h.shares
  {
    var b := ValueRows([h], pd);
    var row := ValueRow(h, Some(p));
    assert b[1..] == [];
    assert b[0] == row;
    assert row.marketValue.Some?;
    assert row.marketValue.value == p * h.shares;
    assert KnownValues(b) == [p * h.shares] + KnownValues(b[1..]);
    assert Sum([p * h.shares]) == p * h.shares + Sum([]);
  }

  /** A one-lot table whose lot has no price is worth nothing. */
  lemma {:induction false} UnpricedLotValue(h: Holding, pd: PriceData)
    requires PriceOf(pd, h.ticker) == None
    ensures TotalValue(ValueRows([h], pd)) == 0.0
  {
    assert ValueRows([h], pd)[1..] == [];
  }

  /** The total cost of a one-lot table: that lot's cost. */
  lemma {:induction false} SingleLotCost(h: Holding, pd: PriceData)
    ensures TotalCost(ValueRows([h], pd)) == h.costBasis * h.shares
  {
    assert ValueRows([h], pd)[1..] == [];
  }

  /** The totals of a store extended by one lot, from those of the store. */
  lemma {:induction false} AppendLotTotals(hs: seq<Holding>, h: Holding, pd: PriceData)
    ensures TotalValue(ValueRows(hs + [h], pd)) == TotalValue(ValueRows(hs, pd)) + TotalValue(ValueRows([h], pd))
    ensures TotalCost(ValueRows(hs + [h], pd)) == TotalCost(ValueRows(hs, pd)) + TotalCost(ValueRows([h], pd))
  {
    var a := ValueRows(hs, pd);
    var b := ValueRows([h], pd);
    ValueRowsConcat(hs, [h], pd);
    KnownValuesConcat(a, b);
    SumConcat(KnownValues(a), KnownValues(b));
    TotalCostConcat(a, b);
  }

  /** Adding a lot whose price is unknown leaves the total value where it was
      and raises the total cost by that lot's cost. */
  lemma {:induction false} AddUnpricedLot(hs: seq<Holding>, h: Holding, pd: PriceData)
    requires PriceOf(pd, h.ticker) == None
    ensures TotalValue(ValueRows(hs + [h], pd)) == TotalValue(ValueRows(hs, pd))
    ensures TotalCost(ValueRows(hs + [h], pd)) == TotalCost(ValueRows(hs, pd)) + h.costBasis * h.shares
  {
    AppendLotTotals(hs, h, pd);
    UnpricedLotValue(h, pd);
    SingleLotCost(h, pd);
  }

  lemma {:induction false} AddPricedLotValue(hs: seq<Holding>, h: Holding, pd: PriceData, p: real)
    requires PriceOf(pd, h.ticker) == Some(p)
    ensures TotalValue(ValueRows(hs + [h], pd)) == TotalValue(ValueRows(hs, pd)) + p * h.shares
  {
    PricedLotValue(h, pd, p);
    AppendLotTotals(hs, h, pd);
  }

  /** Adding a lot whose price is `p` raises the total value by its market
      value and the total cost by its cost. */
  lemma {:induction false} AddPricedLot(hs: seq<Holding>, h: Holding, pd: PriceData, p: real)
    requires PriceOf(pd, h.ticker) == Some(p)
    ensures TotalValue(ValueRows(hs + [h], pd)) == TotalValue(ValueRows(hs, pd)) + p * h.shares
    ensures TotalCost(ValueRows(hs + [h], pd)) == TotalCost(ValueRows(hs, pd)) + h.costBasis * h.shares
  {
    AddPricedLotValue(hs, h, pd, p);
    AppendLotTotals(hs, h, pd);
    SingleLotCost(h, pd);
  }

  /** Rows as the valuation produces them: a row has a gain exactly when it
      has a market value, and then the two differ by the row's cost. */
  ghost predicate Consistent(rows: seq<Row>) {
    forall i :: 0 <= i < |rows| ==>
      && (rows[i].marketValue.Some? <==> rows[i].gainLoss.Some?)
      && (rows[i].marketValue.Some? ==>
            rows[i].gainLoss.value + CostTotal(rows[i].shares, rows[i].costBasis) == rows[i].marketValue.value)
  }

  /** Sum of the "Gain/Loss ($)" column, missing entries skipped. */
  function KnownGains(rows: seq<Row>): real {
    if rows == [] then 0.0
    else (match rows[0].gainLoss case Some(g) => g case None => 0.0) + KnownGains(rows[1..])
  }

  /** Total cost of the rows that have no price. */
  function UnpricedCost(rows: seq<Row>): real {
    if rows == [] then 0.0
    else
      var own := if rows[0].marketValue.None? then CostTotal(rows[0].shares, rows[0].costBasis) else 0.0;
      own + UnpricedCost(rows[1..])
  }

  lemma {:induction false} ValueMinusCost(rows: seq<Row>)
    requires Consistent(rows)
    ensures TotalValue(rows) - TotalCost(rows) == KnownGains(rows) - UnpricedCost(rows)
  {
    if rows != [] {
      assert Consistent(rows[1..]) by {
        forall i | 0 <= i < |rows[1..]|
          ensures rows[1..][i] == rows[i + 1]
        {
        }
      }
      ValueMinusCost(rows[1..]);
      match rows[0].marketValue
      case Some(v) =>
        assert KnownValues(rows) == [v] + KnownValues(rows[1..]);
        assert ([v] + KnownValues(rows[1..]))[1..] == KnownValues(rows[1..]);
      case None =>
    }
  }

  lemma ValueRowsConsistent(hs: seq<Holding>, pd: PriceData)
    ensures Consistent(ValueRows(hs, pd))
  {
  }

  /** What the total gain means when some prices are missing: the gains of
      the priced lots, less the whole cost of every unpriced lot, and not the
      sum of the known gains alone. */
  lemma TotalGainDecomposition(hs: seq<Holding>, pd: PriceData)
    requires TotalValue(ValueRows(hs, pd)) != 0.0
    ensures Summarize(ValueRows(hs, pd)).totalGain
      == KnownGains(ValueRows(hs, pd)) - UnpricedCost(ValueRows(hs, pd))
  {
    ValueRowsConsistent(hs, pd);
    ValueMinusCost(ValueRows(hs, pd));
  }

  lemma {:induction false} NoUnpricedCost(rows: seq<Row>)
    requires forall i :: 0 <= i < |rows| ==> rows[i].marketValue.Some?
    ensures UnpricedCost(rows) == 0.0
  {
    if rows != [] {
      assert forall i :: 0 <= i < |rows[1..]| ==> rows[1..][i] == rows[i + 1];
      NoUnpricedCost(rows[1..]);
    }
  }

  /** When every lot is priced and the total value is not 0, the total gain
      is the sum of the per-lot gains. */
  lemma FullyPricedTotalGain(hs: seq<Holding>, pd: PriceData)
    requires forall i :: 0 <= i < |hs| ==> PriceOf(pd, hs[i].ticker).Some?
    requires TotalValue(ValueRows(hs, pd)) != 0.0
    ensures Summarize(ValueRows(hs, pd)).totalGain == KnownGains(ValueRows(hs, pd))
  {
    TotalGainDecomposition(hs, pd);
    NoUnpricedCost(ValueRows(hs, pd));
  }

  /** When no price could be fetched the summary shows 0 value, 0 gain and
      0 percent, although the lots still carry their full cost. */
  lemma NoPricesSummary(hs: seq<Holding>, pd: PriceData)
    requires forall i :: 0 <= i < |hs| ==> PriceOf(pd, hs[i].ticker).None?
    ensures Summarize(ValueRows(hs, pd)).totalValue == 0.0
    ensures Summarize(ValueRows(hs, pd)).totalGain == 0.0
    ensures Summarize(ValueRows(hs, pd)).totalGainPct == 0.0
    ensures Summarize(ValueRows(hs, pd)).totalCost == TotalCost(ValueRows(hs, pd))
  {
    var rows := ValueRows(hs, pd);
    assert forall i :: 0 <= i < |rows| ==> rows[i].marketValue.None?;
    assert KnownValues(rows) == [];
    var s := Summarize(rows);
    assert s.totalValue == 0.0;
    assert s.totalGain == 0.0;
  }

  /** Five shares bought at 10 with no price: nothing is valued, the cost is
      50, and the gain shows as 0. */
  lemma ExampleUnknownPrice()
    ensures Summarize(ValueRows([Holding("XYZ", 5.0, 10.0)], map["XYZ" := None]))
      == Totals(0.0, 50.0, 0.0, 0.0)
  {
    var hs := [Holding("XYZ", 5.0, 10.0)];
    var pd: PriceData := map["XYZ" := None];
    var rows := ValueRows(hs, pd);
    NoPricesSummary(hs, pd);
    assert rows[1..] == [];
    assert TotalCost(rows) == 50.0;
  }

}
