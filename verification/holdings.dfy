/** The session's holdings store (app.py:8-38): an ordered list of lots that
    only ever grows by appending a validated form submission and shrinks by
    dropping every lot of one ticker. Duplicate tickers are separate lots. */
module Holdings {
  import opened Optional
  import opened Tickers

  /** One lot: `{"ticker", "shares", "cost_basis"}`, the cost basis being a
      price per share. */
  datatype Holding = Holding(ticker: string, shares: real, costBasis: real)

  /** Number of lots in `hs` whose ticker is exactly `t`. */
  function LotCount(hs: seq<Holding>, t: string): (n: nat)
    ensures n <= |hs|
    ensures n == 0 <==> forall i :: 0 <= i < |hs| ==> hs[i].ticker != t
  {
    if hs == [] then 0
    else (if hs[0].ticker == t then 1 else 0) + LotCount(hs[1..], t)
  }

  /** The intake guard (app.py:16, 21-26): the ticker is normalised first and
      the lot is accepted only when that normalised ticker is non-empty and
      the share count is positive. The cost basis is not checked. */
  function Intake(rawTicker: string, shares: real, costBasis: real): (r: Option<Holding>)
    ensures r.Some? <==> Normalize(rawTicker) != [] && shares > 0.0
    ensures r.Some? ==> r.value.ticker == Normalize(rawTicker) && r.value.shares == shares && r.value.costBasis == costBasis
    ensures r.Some? ==> r.value.ticker != [] && IsNormal(r.value.ticker)
  {
    var t := Normalize(rawTicker);
    if t != [] && shares > 0.0 then Some(Holding(t, shares, costBasis)) else None
  }

  /** Submitting the form: an accepted lot is appended at the end, with every
      earlier lot kept in place; a rejected submission changes nothing. */
  function Add(hs: seq<Holding>, rawTicker: string, shares: real, costBasis: real): (r: seq<Holding>)
    ensures Normalize(rawTicker) == [] || shares <= 0.0 ==> r == hs
    ensures Normalize(rawTicker) != [] && shares > 0.0 ==>
      && |r| == |hs| + 1
      && r[..|hs|] == hs
      && r[|hs|] == Holding(Normalize(rawTicker), shares, costBasis)
  {
    match Intake(rawTicker, shares, costBasis)
    case Some(h) => hs + [h]
    case None => hs
  }

  lemma {:induction false} AddAppends(hs: seq<Holding>, rawTicker: string, shares: real, costBasis: real)
    requires Normalize(rawTicker) != [] && shares > 0.0
    ensures Add(hs, rawTicker, shares, costBasis) == hs + [Holding(Normalize(rawTicker), shares, costBasis)]
  {
  }

  /** A blank or whitespace-only ticker is rejected whatever the share count,
      and so is a non-positive share count whatever the ticker. */
  lemma BlankOrEmptyLotRejected(hs: seq<Holding>, rawTicker: string, shares: real, costBasis: real)
    requires shares <= 0.0 || forall k :: 0 <= k < |rawTicker| ==> IsSpace(rawTicker[k])
    ensures Add(hs, rawTicker, shares, costBasis) == hs
  {
    NormalizeEmptyIffBlank(rawTicker);
  }

  /** A ticker with a visible character and a positive share count is
      always accepted, under its normalised ticker. */
  lemma VisibleLotAccepted(hs: seq<Holding>, rawTicker: string, shares: real, costBasis: real, k: int)
    requires 0 <= k < |rawTicker| && !IsSpace(rawTicker[k]) && shares > 0.0
    ensures Add(hs, rawTicker, shares, costBasis) == hs + [Holding(Normalize(rawTicker), shares, costBasis)]
  {
    NormalizeEmptyIffBlank(rawTicker);
  }

  /** The remove button (app.py:36-38): keeps, in their original order,
      exactly the lots whose ticker differs from `t`. */
  function Remove(hs: seq<Holding>, t: string): (r: seq<Holding>)
    ensures |r| == |hs| - LotCount(hs, t)
    ensures forall i :: 0 <= i < |r| ==> r[i].ticker != t
    ensures LotCount(hs, t) == 0 ==> r == hs
  {
    if hs == [] then []
    else if hs[0].ticker != t then [hs[0]] + Remove(hs[1..], t)
    else Remove(hs[1..], t)
  }

  /** Removal keeps every lot of another ticker, as many times as it was
      stored, and no lot of `t`. */
  lemma {:induction false} RemoveContents(hs: seq<Holding>, t: string, h: Holding)
    ensures multiset(Remove(hs, t))[h] == if h.ticker == t then 0 else multiset(hs)[h]
  {
    if hs != [] {
      RemoveContents(hs[1..], t, h);
      assert hs == [hs[0]] + hs[1..];
      assert multiset(hs) == multiset{hs[0]} + multiset(hs[1..]);
      if hs[0].ticker != t {
        assert multiset(Remove(hs, t)) == multiset{hs[0]} + multiset(Remove(hs[1..], t));
      }
    }
  }

  /** The set of tickers priced on each render (app.py:46): every ticker that
      at least one lot carries, once. */
  function TickerSet(hs: seq<Holding>): (ts: set<string>)
    ensures forall t :: t in ts <==> LotCount(hs, t) > 0
    ensures |ts| <= |hs|
  {
    if hs == [] then {}
    else {hs[0].ticker} + TickerSet(hs[1..])
  }

  /** Removal distributes over concatenation: the lots of each part are
      filtered on their own and stay in order, so the result is the
      order-preserving subsequence of the lots not named `t`. */
  lemma {:induction false} RemoveConcat(a: seq<Holding>, b: seq<Holding>, t: string)
    ensures Remove(a + b, t) == Remove(a, t) + Remove(b, t)
  {
    if a == [] {
      assert a + b == b;
    } else {
      var ab := a + b;
      assert ab[0] == a[0] && ab[1..] == a[1..] + b;
      RemoveConcat(a[1..], b, t);
      if a[0].ticker != t {
        calc {
          Remove(ab, t);
          [a[0]] + Remove(a[1..] + b, t);
          [a[0]] + (Remove(a[1..], t) + Remove(b, t));
          ([a[0]] + Remove(a[1..], t)) + Remove(b, t);
        }
      }
    }
  }

  /** Every lot left after removal is one of the stored lots. */
  lemma {:induction false} RemoveKeepsStoredLots(hs: seq<Holding>, t: string, i: int)
    requires 0 <= i < |Remove(hs, t)|
    ensures exists j :: 0 <= j < |hs| && hs[j] == Remove(hs, t)[i]
  {
    var r := Remove(hs, t);
    RemoveContents(hs, t, r[i]);
    assert r[i] in multiset(r);
    assert r[i] in multiset(hs);
    assert r[i] in hs;
  }

  /** A single lot survives removal exactly when its ticker differs. */
  lemma RemoveSingle(h: Holding, t: string)
    ensures Remove([h], t) == if h.ticker == t then [] else [h]
  {
    assert [h][1..] == [];
  }

  lemma {:induction false} RemoveIdempotent(hs: seq<Holding>, t: string)
    ensures Remove(Remove(hs, t), t) == Remove(hs, t)
  {
    var r := Remove(hs, t);
    assert LotCount(r, t) == 0;
  }

  /** Removing `t` leaves the count of every other ticker as it was. */
  lemma {:induction false} LotCountAfterRemove(hs: seq<Holding>, t: string, u: string)
    ensures LotCount(Remove(hs, t), u) == if u == t then 0 else LotCount(hs, u)
  {
    if hs != [] {
      var rest := Remove(hs[1..], t);
      LotCountAfterRemove(hs[1..], t, u);
      if hs[0].ticker != t {
        var r := [hs[0]] + rest;
        assert Remove(hs, t) == r;
        assert r[0] == hs[0] && r[1..] == rest;
        assert LotCount(r, u) == (if hs[0].ticker == u then 1 else 0) + LotCount(rest, u);
      } else {
        assert Remove(hs, t) == rest;
      }
    }
  }

  /** After removal `t` is no longer offered for pricing or removal, and
      every other ticker still is. */
  lemma TickerSetAfterRemove(hs: seq<Holding>, t: string)
    ensures TickerSet(Remove(hs, t)) == TickerSet(hs) - {t}
  {
    var l := TickerSet(Remove(hs, t));
    var r := TickerSet(hs) - {t};
    forall u | u in l
      ensures u in r
    {
      LotCountAfterRemove(hs, t, u);
    }
    forall u | u in r
      ensures u in l
    {
      LotCountAfterRemove(hs, t, u);
    }
  }

  /** Removing a ticker after adding a lot of a different ticker is the same
      as removing first and adding afterwards. */
  lemma RemoveCommutesWithAdd(hs: seq<Holding>, rawTicker: string, shares: real, costBasis: real, t: string)
    requires Normalize(rawTicker) != t
    ensures Remove(Add(hs, rawTicker, shares, costBasis), t) == Add(Remove(hs, t), rawTicker, shares, costBasis)
  {
    var i := Intake(rawTicker, shares, costBasis);
    if i.Some? {
      RemoveConcat(hs, [i.value], t);
      RemoveSingle(i.value, t);
    }
  }

  /** Adding a lot and then removing its ticker drops every lot of that
      ticker, including the one just added. */
  lemma RemoveUndoesAdd(hs: seq<Holding>, rawTicker: string, shares: real, costBasis: real)
    ensures Remove(Add(hs, rawTicker, shares, costBasis), Normalize(rawTicker)) == Remove(hs, Normalize(rawTicker))
  {
    var t := Normalize(rawTicker);
    var i := Intake(rawTicker, shares, costBasis);
    if i.Some? {
      RemoveConcat(hs, [i.value], t);
      RemoveSingle(i.value, t);
    }
  }

}
