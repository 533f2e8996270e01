# Portfolio tracker: holdings store and valuation, in Dafny

The portfolio tracker is a single-page Streamlit app. A user records equity
lots (ticker, shares, cost per share). The app fetches a current price for
each distinct ticker and shows a valuation table plus summary metrics. All of
its logic sits inline in `app.py`. This project lifts that logic into pure
functions over an immutable sequence of lots and proves what they do:

- `Tickers`: how a typed ticker becomes a stored one. The text is upper-cased,
  then stripped of surrounding whitespace, as Python's `upper` and `strip` do.
- `Holdings`: the lot store. `Intake` and `Add` validate the form and append a
  lot. `Remove` drops every lot of a ticker. `TickerSet` is the set of tickers
  to price.
- `Prices`: one render pass's price table. The quote service's per-ticker
  outcome is a parameter, and `None` stands for a lookup that raised.
  `PriceOf` is `dict.get`.
- `Valuation`: one table row per lot, in store order. With a price, the row
  has market value, gain and gain percentage. Without a price, all three are
  absent.
- `Summary`: total value, total cost, total gain and total gain percentage,
  including the rule that the total gain is forced to 0 when the total value
  is 0.
- `Session`: user actions, the store invariant they keep, and a whole render
  pass.

Modelling assumptions:
- Share counts, prices and costs are exact `real`s, not IEEE floats.
- pandas' `Series.sum` is taken to skip missing entries. An empty or
  all-missing column is taken to sum to 0. `KnownValues` followed by `Sum` is
  this assumption written out.

## Model

| member | source | states |
|---|---|---|
| Tickers.UpperChar | app.py:16 | an ASCII lower-case letter becomes its own capital (code point 32 lower); every other character is kept; whitespace stays whitespace |
| Tickers.Upper | app.py:16 | `upper()` keeps the length and maps each character independently |
| Tickers.SkipSpaces | app.py:16 | the left scan of `strip()` passes only whitespace and stops at the first non-space character or at the end |
| Tickers.BackSpaces | app.py:16 | the right scan of `strip()` passes only trailing whitespace and stops after the last non-space character or at the lower bound |
| Tickers.Strip | app.py:16 | `strip()` is the run of the input that begins after the leading whitespace and is followed only by whitespace; it neither starts nor ends with whitespace, and it is empty exactly when the input is all whitespace |
| Tickers.Normalize | app.py:16 | the stored ticker is the typed text from its first non-space character, upper-cased, up to where only whitespace follows; it has no lower-case ASCII letter and no surrounding whitespace |
| Tickers.StripUpperIsNormal | app.py:16 | `text.upper().strip()` leaves no lower-case ASCII letter and no surrounding whitespace |
| Tickers.SkipSpacesUpper | app.py:16 | upper-casing does not move the first non-space character, so `upper()` before `strip()` trims at the same place |
| Tickers.StripUpperKeepsText | app.py:16 | `text.upper().strip()` is the upper-cased run of the typed text between its leading and trailing whitespace |
| Tickers.UpperFixesUpperCase | app.py:16 | upper-casing text with no lower-case letters changes nothing |
| Tickers.StripFixesTrimmed | app.py:16 | stripping text that has no surrounding whitespace changes nothing |
| Tickers.NormalizeFixesNormal | app.py:16 | a ticker is left unchanged by normalisation exactly when it is already in stored form |
| Tickers.NormalizeIdempotent | app.py:16 | normalising twice is the same as normalising once |
| Tickers.NormalizeEmptyIffBlank | app.py:16-21 | the empty-ticker test after normalisation rejects exactly the blank and whitespace-only entries |
| Tickers.NormalizeExample | app.py:16 | "  aapl\t" is stored as "AAPL" |
| Tickers.StripExample | app.py:16 | "  AAPL\t" strips to "AAPL" |
| Holdings.LotCount | app.py:36-38 | the lot count of a ticker is at most the store size, and is 0 exactly when no lot carries that ticker |
| Holdings.Intake | app.py:16-26 | a lot is produced exactly when the normalised ticker is non-empty and shares are positive; it carries that ticker, the shares and the cost basis unchanged, in stored form |
| Holdings.Add | app.py:21-26 | a rejected submission leaves the store as it was; an accepted one grows it by one, keeps every earlier lot in place and puts the new lot last |
| Holdings.AddAppends | app.py:21-26 | an accepted submission is exactly the old store followed by the new lot |
| Holdings.BlankOrEmptyLotRejected | app.py:16-21 | a whitespace-only ticker or a non-positive share count leaves the store unchanged |
| Holdings.VisibleLotAccepted | app.py:16-26 | a ticker with a visible character and positive shares is always appended under its normalised ticker |
| Holdings.Remove | app.py:36-38 | the store shrinks by exactly the number of lots of the ticker, no lot of it remains, and the store is unchanged when there was none |
| Holdings.RemoveContents | app.py:36-38 | every lot of another ticker is kept with its multiplicity, and no lot of the removed ticker is |
| Holdings.RemoveConcat | app.py:36-38 | removal filters each part of the store separately and keeps their order, so survivors keep their relative order |
| Holdings.RemoveSingle | app.py:37 | one lot survives exactly when its ticker differs from the removed one |
| Holdings.RemoveKeepsStoredLots | app.py:36-38 | every surviving lot is one of the stored lots |
| Holdings.RemoveIdempotent | app.py:36-38 | removing the same ticker twice is the same as removing it once |
| Holdings.LotCountAfterRemove | app.py:36-38 | removal zeroes the removed ticker's lot count and leaves every other ticker's count unchanged |
| Holdings.TickerSet | app.py:46 | the request set holds exactly the tickers that some lot carries, and is no larger than the store |
| Holdings.TickerSetAfterRemove | app.py:36-46 | after removal the request set is the old one without the removed ticker |
| Holdings.RemoveCommutesWithAdd | app.py:21-38 | removing another ticker commutes with adding a lot |
| Holdings.RemoveUndoesAdd | app.py:21-38 | removing the ticker just added also drops the new lot, along with all older lots of that ticker |
| Prices.FetchPrices | app.py:46-56 | there is exactly one price entry per requested ticker, and it is that ticker's quote outcome, `None` when the lookup raised |
| Prices.PriceOf | app.py:61 | `price_data.get`: a ticker with an entry reads its entry, and a ticker without one reads `None` |
| Prices.PriceOfFetchedHolding | app.py:46-61 | every lot finds its ticker in the fetched table, so its price is its ticker's quote and never the missing-key default |
| Valuation.CostTotal | app.py:64 | a lot's cost total is not negative for non-negative inputs, positive for positive shares at a positive cost basis, and 0 when either factor is 0 |
| Valuation.ValueRow | app.py:61-80 | a row copies the lot's fields and price; with a price, value = price × shares, value − gain = cost × shares, and gain % × cost total = gain × 100 when the cost total is positive, else exactly 0; without a price, all three are absent |
| Valuation.ValueRows | app.py:59-80 | there is one row per lot, in store order, each valuing its lot at its ticker's price |
| Valuation.ValueRowsConcat | app.py:59-80 | the table of a concatenated store is the concatenation of the tables |
| Valuation.GainSignFollowsPrice | app.py:62-65 | with positive shares, a lot shows a gain exactly when price > cost per share, and a loss exactly when price < cost per share |
| Valuation.GainPctIsPriceMove | app.py:63-66 | the gain % is (price − cost per share) / cost per share × 100, whatever the share count |
| Valuation.ZeroCostLotHasZeroPct | app.py:64-66 | a lot with zero cost basis has gain % exactly 0 and gain equal to its market value |
| Valuation.ExampleKnownPrice | app.py:62-66 | 10 shares at cost 150 and price 200 give value 2000, gain 500 and gain % 100/3 |
| Summary.SumConcat | app.py:85 | the column sum of a concatenation is the sum of the parts' sums |
| Summary.KnownValues | app.py:85 | skipping missing market values drops nothing exactly when every row is priced, and leaves nothing exactly when no row is |
| Summary.KnownValuesContents | app.py:85 | every value kept is some row's market value, and when every row is priced the kept values are the rows' market values in row order |
| Summary.KnownValuesConcat | app.py:85 | the known market values of a concatenated table are those of the parts, in order |
| Summary.TotalValue | app.py:85 | a table with no priced row, the empty table included, is worth 0 |
| Summary.TotalCostNonNegative | app.py:86 | with the form's non-negative shares and cost bases, the total cost is not negative |
| Summary.TotalCostConcat | app.py:86 | the total cost of a concatenated table is the sum of the parts' costs |
| Summary.Summarize | app.py:85-88 | total value sums the known market values; total cost sums cost × shares over all rows; total gain is value − cost, or 0 when value is 0; total gain % × cost = gain × 100 when cost > 0, else 0 |
| Summary.PricedLotValue | app.py:63-85 | a one-lot table with price p is worth p × shares |
| Summary.UnpricedLotValue | app.py:67-85 | a one-lot table without a price is worth 0 |
| Summary.SingleLotCost | app.py:86 | a one-lot table costs the lot's cost basis × shares |
| Summary.AppendLotTotals | app.py:85-86 | appending a lot adds that lot's one-row totals to the store's totals |
| Summary.AddUnpricedLot | app.py:67-86 | adding a lot with an unknown price leaves the total value unchanged and raises the total cost by cost basis × shares |
| Summary.AddPricedLotValue | app.py:63-85 | adding a lot with price p raises the total value by p × shares |
| Summary.AddPricedLot | app.py:63-86 | adding a lot with price p raises the total value by p × shares and the total cost by cost basis × shares |
| Summary.ValueMinusCost | app.py:62-86 | for valuation-shaped rows, total value − total cost = the known gains − the cost of the unpriced rows |
| Summary.ValueRowsConsistent | app.py:62-70 | valuation rows have a gain exactly when they have a value, and the two differ by the row's cost |
| Summary.TotalGainDecomposition | app.py:85-87 | when the total value is non-zero, the total gain is the sum of the priced lots' gains minus the full cost of every unpriced lot |
| Summary.NoUnpricedCost | app.py:67-86 | a fully priced table has no unpriced cost |
| Summary.FullyPricedTotalGain | app.py:62-87 | when every lot is priced and the total value is non-zero, the total gain is the sum of the per-lot gains |
| Summary.NoPricesSummary | app.py:67-88 | when no price is known, total value, total gain and total gain % are all 0, while total cost is still the full cost |
| Summary.ExampleUnknownPrice | app.py:59-88 | 5 shares at cost 10 with no price give value 0, cost 50, gain 0 and gain % 0 |
| Session.ValidStoreConcat | app.py:22-26 | two valid stores concatenate to a valid store |
| Session.AcceptedLotValid | app.py:16-26 | an accepted submission with a non-negative cost basis is a valid lot |
| Session.AcceptedAddValid | app.py:16-26 | an accepted submission appended to a valid store leaves a valid store |
| Session.AddPreservesValid | app.py:16-26 | submitting the form keeps every stored lot valid: non-empty stored-form ticker, positive shares, non-negative cost |
| Session.RemovePreservesValid | app.py:36-38 | removal keeps every stored lot valid |
| Session.Apply | app.py:21-38 | a submission keeps every stored lot in place and adds at most one after them; a removal never grows the store and leaves no lot of the chosen ticker |
| Session.ApplyPreservesValid | app.py:15-38 | every action the widgets can produce keeps the store valid, and a removal offered by the drop-down drops at least one lot |
| Session.Replay | app.py:8-38 | a run of actions grows the store by at most one lot per action, and a run of removals alone never grows it |
| Session.ReplayPreservesValid | app.py:8-38 | any run of widget actions from a valid store, the empty one included, leaves a valid store |
| Session.Render | app.py:42-93 | an empty store shows nothing valued; otherwise row i is lot i valued at its ticker's looked-up price, the totals are the summary of those rows, and the position count equals the number of lots, which is at least the number of distinct tickers |
| Session.RenderPass | app.py:42-93 | a full pass values every lot at its own ticker's quote outcome, summarises those rows, counts one position per lot, and renders nothing for an empty store |
| Session.ExamplePositionsCountLots | app.py:46-93 | two lots of one ticker are two positions but one priced ticker |

## Left out

- The Streamlit interface is not modelled: page setup, forms, sidebar, messages, the metric widgets (not the values they show), `st.rerun`, and table styling and formatting (app.py:5-6, 12-15, 19, 27, 31-32, 39, 43, 90-92, 95-109). A submission is modelled as a call, and the `submitted` flag is implicit in making that call.
- The quote service (`yfinance`, app.py:48-56) is network I/O through an external library. Its per-ticker outcome is the `quote` parameter of `FetchPrices` and `RenderPass`. A NaN price from it is not modelled.
- Display rounding (4 and 2 decimals) and the "—" shown for a zero total value are presentation only.
- Floating-point effects are not modelled. All quantities are exact reals, and the falsy test on the total value (app.py:87) is modelled as "equals 0".
- Tickers.UpperChar: only ASCII letters are upper-cased. Python's `str.upper` also maps non-ASCII letters, some of them to several characters, and that is not modelled.
- Tickers.Upper: inherits the ASCII-only restriction of `UpperChar`.
- The store lives in per-session state (app.py:8-10). Here it is an explicit value threaded through `Apply` and `Replay`.
- Custom what-if scenarios and the fixed historical stress tests are not in `app.py`, so there is no code to model them against.
