/** One interactive session (app.py:8-93): user actions between render
    passes change the store, and each render pass prices the store's tickers
    and shows the table and summary, or an invitation to add holdings when the
    store is empty. */
module Session {
  import opened Optional
  import opened Tickers
  import opened Holdings
  import opened Prices
  import opened Valuation
  import opened Summary

  /** A submitted intake form, or a press of the remove button with the
      ticker chosen in the drop-down. */
  datatype Action =
    | Submit(rawTicker: string, shares: real, costBasis: real)
    | RemoveTicker(ticker: string)

  /** What the widgets can produce (app.py:17-18, 33-34): both numeric inputs
      are bounded below by 0, and the drop-down only offers tickers present
      in the store. */
  predicate Offered(hs: seq<Holding>, a: Action) {
    match a
    case Submit(_, shares, costBasis) => shares >= 0.0 && costBasis >= 0.0
    case RemoveTicker(t) => t in TickerSet(hs)
  }

  /** One action on the store. A submission keeps every stored lot in place
      and adds at most one lot after them; a removal leaves no lot of the
      chosen ticker and never grows the store. */
  function Apply(hs: seq<Holding>, a: Action): (r: seq<Holding>)
    ensures a.Submit? ==> |hs| <= |r| <= |hs| + 1 && r[..|hs|] == hs
    ensures a.RemoveTicker? ==> |r| <= |hs|
    ensures a.RemoveTicker? ==> forall i :: 0 <= i < |r| ==> r[i].ticker != a.ticker
  {
    match a
    case Submit(raw, shares, costBasis) => Add(hs, raw, shares, costBasis)
    case RemoveTicker(t) => Remove(hs, t)
  }

  /** A stored lot: a normalised, non-empty ticker, a positive share count and
      a non-negative cost basis. */
  predicate ValidLot(h: Holding) {
    h.ticker != [] && IsNormal(h.ticker) && h.shares > 0.0 && h.costBasis >= 0.0
  }

  predicate ValidStore(hs: seq<Holding>) {
    forall i :: 0 <= i < |hs| ==> ValidLot(hs[i])
  }

  lemma {:induction false} ValidStoreConcat(a: seq<Holding>, b: seq<Holding>)
    requires ValidStore(a) && ValidStore(b)
    ensures ValidStore(a + b)
  {
    forall i | 0 <= i < |a + b|
      ensures ValidLot((a + b)[i])
    {
      if i >= |a| {
        assert (a + b)[i] == b[i - |a|];
      }
    }
  }

  /** An accepted submission with a non-negative cost basis is a valid lot. */
  lemma {:induction false} AcceptedLotValid(raw: string, shares: real, costBasis: real)
    requires Normalize(raw) != [] && shares > 0.0 && costBasis >= 0.0
    ensures ValidLot(Holding(Normalize(raw), shares, costBasis))
  {
  }

  lemma {:induction false} AcceptedAddValid(hs: seq<Holding>, raw: string, shares: real, costBasis: real)
    requires ValidStore(hs) && costBasis >= 0.0
    requires Normalize(raw) != [] && shares > 0.0
    ensures ValidStore(Add(hs, raw, shares, costBasis))
  {
    var h := Holding(Normalize(raw), shares, costBasis);
    AddAppends(hs, raw, shares, costBasis);
    AcceptedLotValid(raw, shares, costBasis);
    assert ValidStore([h]);
    ValidStoreConcat(hs, [h]);
  }

  lemma {:induction false} AddPreservesValid(hs: seq<Holding>, raw: string, shares: real, costBasis: real)
    requires ValidStore(hs) && costBasis >= 0.0
    ensures ValidStore(Add(hs, raw, shares, costBasis))
  {
    if Normalize(raw) != [] && shares > 0.0 {
      AcceptedAddValid(hs, raw, shares, costBasis);
    } else {
      assert Add(hs, raw, shares, costBasis) == hs;
    }
  }

  lemma {:induction false} RemovePreservesValid(hs: seq<Holding>, t: string)
    requires ValidStore(hs)
    ensures ValidStore(Remove(hs, t))
  {
    var r := Remove(hs, t);
    forall i | 0 <= i < |r|
      ensures ValidLot(r[i])
    {
      RemoveKeepsStoredLots(hs, t, i);
    }
  }

  /** Every action the widgets can produce keeps the store valid, and a
      removal offered by the drop-down always drops at least one lot. */
  lemma {:induction false} ApplyPreservesValid(hs: seq<Holding>, a: Action)
    requires ValidStore(hs) && Offered(hs, a)
    ensures ValidStore(Apply(hs, a))
    ensures a.RemoveTicker? ==> |Apply(hs, a)| < |hs|
  {
    match a
    case Submit(raw, shares, costBasis) =>
      AddPreservesValid(hs, raw, shares, costBasis);
    case RemoveTicker(t) =>
      RemovePreservesValid(hs, t);
  }

  /** The store after a sequence of actions: each action adds at most one
      lot, so the store grows by at most the number of actions, and a run
      of removals alone never grows it. */
  function Replay(hs: seq<Holding>, actions: seq<Action>): (r: seq<Holding>)
    ensures |r| <= |hs| + |actions|
    ensures (forall j :: 0 <= j < |actions| ==> actions[j].RemoveTicker?) ==> |r| <= |hs|
    decreases |actions|
  {
    if actions == [] then hs else Replay(Apply(hs, actions[0]), actions[1..])
  }

  /** Actions offered one after another, each by the widgets of the store it
      acts on. */
  predicate OfferedRun(hs: seq<Holding>, actions: seq<Action>)
    decreases |actions|
  {
    actions == [] || (Offered(hs, actions[0]) && OfferedRun(Apply(hs, actions[0]), actions[1..]))
  }

  /** Starting from the empty store, any run of widget actions leaves only
      valid lots: every stored ticker is normalised and non-empty and every
      share count is positive. */
  lemma {:induction false} ReplayPreservesValid(hs: seq<Holding>, actions: seq<Action>)
    requires ValidStore(hs) && OfferedRun(hs, actions)
    ensures ValidStore(Replay(hs, actions))
    decreases |actions|
  {
    if actions != [] {
      ApplyPreservesValid(hs, actions[0]);
      ReplayPreservesValid(Apply(hs, actions[0]), actions[1..]);
    }
  }

  /** What a render pass shows: the table, the summary metrics and the
      position count. */
  datatype View = View(rows: seq<Row>, totals: Totals, positions: nat)

  /** A render pass given the fetched prices: nothing is valued for an empty
      store; otherwise one row per lot, each the lot valued at its ticker's
      price, the summary of those rows, and a position count of lots rather
      than of distinct tickers. */
  function Render(hs: seq<Holding>, pd: PriceData): (v: Option<View>)
    ensures v.None? <==> hs == []
    ensures v.Some? ==> |v.value.rows| == |hs| == v.value.positions
    ensures v.Some? ==> v.value.positions >= |TickerSet(hs)|
    ensures v.Some? ==> forall i :: 0 <= i < |hs| ==>
      && v.value.rows[i] == ValueRow(hs[i], PriceOf(pd, hs[i].ticker))
      && v.value.rows[i].ticker == hs[i].ticker
      && v.value.rows[i].shares == hs[i].shares
      && v.value.rows[i].costBasis == hs[i].costBasis
      && v.value.rows[i].price == PriceOf(pd, hs[i].ticker)
    ensures v.Some? ==> v.value.totals == Summarize(v.value.rows)
  {
    if hs == [] then None
    else
      var rows := ValueRows(hs, pd);
      Some(View(rows, Summarize(rows), |hs|))
  }

  /** A whole render pass: price every distinct ticker once with the quote
      outcome `quote`, then render. Each row is its lot valued at its
      ticker's quote, and the totals summarise those rows. */
  function RenderPass(hs: seq<Holding>, quote: string -> Option<real>): (v: Option<View>)
    ensures v.None? <==> hs == []
    ensures v.Some? ==> |v.value.rows| == |hs| == v.value.positions
    ensures v.Some? ==> forall i :: 0 <= i < |hs| ==>
      && v.value.rows[i] == ValueRow(hs[i], quote(hs[i].ticker))
      && v.value.rows[i].price == quote(hs[i].ticker)
    ensures v.Some? ==> v.value.totals == Summarize(v.value.rows)
  {
    var pd := FetchPrices(TickerSet(hs), quote);
    assert forall i :: 0 <= i < |hs| ==> PriceOf(pd, hs[i].ticker) == quote(hs[i].ticker) by {
      forall i | 0 <= i < |hs|
        ensures PriceOf(pd, hs[i].ticker) == quote(hs[i].ticker)
      {
        PriceOfFetchedHolding(hs, quote, i);
      }
    }
    Render(hs, pd)
  }

  /** Two lots of one ticker are two positions but one priced ticker. */
  lemma ExamplePositionsCountLots()
    ensures Render([Holding("AAPL", 1.0, 100.0), Holding("AAPL", 2.0, 120.0)], map[]).value.positions == 2
    ensures |TickerSet([Holding("AAPL", 1.0, 100.0), Holding("AAPL", 2.0, 120.0)])| == 1
  {
    var hs := [Holding("AAPL", 1.0, 100.0), Holding("AAPL", 2.0, 120.0)];
    assert hs[1..][1..] == [];
    assert TickerSet(hs) == {"AAPL"};
  }

}
