/** Price lookup for one render pass (app.py:45-56, 61). The quote service
    itself is outside the model: its per-ticker outcome is a parameter,
    `None` standing for a symbol whose lookup raised. */
module Prices {
  import opened Optional
  import opened Holdings

  /** Ticker to fetched price, as built in `price_data`. */
  type PriceData = map<string, Option<real>>

  /** One fetch per requested ticker; a failure for one ticker is recorded as
      `None` for that ticker and does not stop the others. */
  function FetchPrices(tickers: set<string>, quote: string -> Option<real>): (pd: PriceData)
    ensures pd.Keys == tickers
    ensures forall t :: t in pd ==> pd[t] == quote(t)
  {
    map t | t in tickers :: quote(t)
  }

  /** `price_data.get(ticker)`: an absent key reads as `None`. */
  function PriceOf(pd: PriceData, t: string): (p: Option<real>)
    ensures t !in pd ==> p == None
    ensures t in pd ==> p == pd[t]
  {
    if t in pd then pd[t] else None
  }

  /** Because the request set is the holdings' own ticker set, every lot's
      lookup finds its entry: a lot's price is exactly its ticker's quote
      outcome, never the missing-key default. */
  lemma PriceOfFetchedHolding(hs: seq<Holding>, quote: string -> Option<real>, i: int)
    requires 0 <= i < |hs|
    ensures hs[i].ticker in FetchPrices(TickerSet(hs), quote)
    ensures PriceOf(FetchPrices(TickerSet(hs), quote), hs[i].ticker) == quote(hs[i].ticker)
  {
    assert LotCount(hs, hs[i].ticker) > 0;
  }

}
