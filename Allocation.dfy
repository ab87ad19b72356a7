/**
 * The allocation part of `build_portfolio_df`: the quant-rating cutoffs taken
 * from the ratings sorted in place, the retention filter, the price join, the
 * position values and portfolio total, and the desired position and position
 * adjustment of every retained holding.
 */
module Allocation {
  import opened Wrappers
  import opened Numeric
  import opened Ledger
  import opened Screen
  import opened AnalysisTable

  // ---------------------------------------------------------------------------
  // Ranking the quant ratings

  predicate SortedDescending(s: seq<real>) {
    forall i, j :: 0 <= i < j < |s| ==> s[i] >= s[j]
  }

  /** Swaps two cells of the array. */
  method Swap(a: array<real>, i: int, j: int)
    requires 0 <= i < a.Length && 0 <= j < a.Length
    modifies a
    ensures a[..] == old(a[..])[i := old(a[j])][j := old(a[i])]
    ensures multiset(a[..]) == multiset(old(a[..]))
  {
    a[i], a[j] := a[j], a[i];
  }

  /** `quant_rankings.sort(reverse=True)`: sorts the array in place, highest rating first. */
  method SortDescending(a: array<real>)
    modifies a
    ensures SortedDescending(a[..])
    ensures multiset(a[..]) == multiset(old(a[..]))
  {
    var i := 0;
    while i < a.Length
      invariant 0 <= i <= a.Length
      invariant SortedDescending(a[..i])
      invariant multiset(a[..]) == multiset(old(a[..]))
    {
      var j := i;
      while j > 0 && a[j - 1] < a[j]
        invariant 0 <= j <= i
        invariant forall p, q :: 0 <= p < q <= i && p != j && q != j ==> a[p] >= a[q]
        invariant forall q :: j < q <= i ==> a[j] > a[q]
        invariant multiset(a[..]) == multiset(old(a[..]))
      {
        Swap(a, j - 1, j);
        j := j - 1;
      }
      i := i + 1;
    }
  }

  /** How many ratings are strictly above `x`. */
  function CountAbove(s: seq<real>, x: real): nat {
    if |s| == 0 then 0 else CountAbove(s[..|s| - 1], x) + (if s[|s| - 1] > x then 1 else 0)
  }

  /** How many ratings are at or above `x`. */
  function CountAtLeast(s: seq<real>, x: real): nat {
    if |s| == 0 then 0 else CountAtLeast(s[..|s| - 1], x) + (if s[|s| - 1] >= x then 1 else 0)
  }

  /**
   * The counts are bounded by the number of ratings: none when every rating
   * lies on the other side of `x`, all of them when every rating lies on this side.
   */
  lemma {:induction false} CountsOfExtremes(s: seq<real>, x: real)
    ensures CountAbove(s, x) <= |s| && CountAtLeast(s, x) <= |s|
    ensures CountAbove(s, x) == 0 <==> forall i :: 0 <= i < |s| ==> s[i] <= x
    ensures CountAbove(s, x) == |s| <==> forall i :: 0 <= i < |s| ==> s[i] > x
    ensures CountAtLeast(s, x) == 0 <==> forall i :: 0 <= i < |s| ==> s[i] < x
    ensures CountAtLeast(s, x) == |s| <==> forall i :: 0 <= i < |s| ==> s[i] >= x
  {
    if |s| > 0 {
      var k := |s| - 1;
      CountsOfExtremes(s[..k], x);
      assert forall i :: 0 <= i < k ==> s[..k][i] == s[i];
    }
  }

  /**
   * `x` is the (k+1)-th highest of the ratings counted with repetition (the
   * value at index `k` of the ratings sorted highest first): at most k
   * ratings lie above it and at least k+1 lie at or above it.
   */
  predicate IsKthHighest(s: seq<real>, x: real, k: nat) {
    x in s && CountAbove(s, x) <= k && CountAtLeast(s, x) >= k + 1
  }

  /** The two cutoffs: `quant_threshold` (20th highest rating) and the 10th highest rating. */
  datatype Cutoffs = Cutoffs(threshold: real, top10: real)

  /** The exception raised when there are fewer than 20 ratings to index. */
  datatype AllocationFault = TooFewRatings(count: nat)

  /** Lines 281-284: the ratings sorted highest first, then indexed at 19 and 9. */
  method QuantCutoffs(ratings: seq<real>) returns (r: Result<Cutoffs, AllocationFault>)
    ensures r.Failure? <==> |ratings| < 20
    ensures r.Failure? ==> r.error == TooFewRatings(|ratings|)
    ensures r.Success? ==> IsKthHighest(ratings, r.value.threshold, 19) && IsKthHighest(ratings, r.value.top10, 9)
  {
    var rankings := new real[|ratings|](i requires 0 <= i < |ratings| => ratings[i]);
    assert rankings[..] == ratings;
    SortDescending(rankings);
    if rankings.Length < 20 {
      return Failure(TooFewRatings(rankings.Length));
    }
    SortedIndexIsKthHighest(rankings[..], ratings, 19);
    SortedIndexIsKthHighest(rankings[..], ratings, 9);
    r := Success(Cutoffs(rankings[19], rankings[9]));
  }

  // ---------------------------------------------------------------------------
  // Counting lemmas

  lemma {:induction false} CountOfAppend(s: seq<real>, t: seq<real>, x: real)
    ensures CountAbove(s + t, x) == CountAbove(s, x) + CountAbove(t, x)
    ensures CountAtLeast(s + t, x) == CountAtLeast(s, x) + CountAtLeast(t, x)
  {
    if |t| > 0 {
      var n := |t| - 1;
      assert (s + t)[..|s + t| - 1] == s + t[..n];
      CountOfAppend(s, t[..n], x);
    } else {
      assert s + t == s;
    }
  }

  /** The counts depend only on the multiset of ratings, not on their order. */
  lemma {:induction false} CountOfPermutation(s: seq<real>, t: seq<real>, x: real)
    requires multiset(s) == multiset(t)
    ensures CountAbove(s, x) == CountAbove(t, x) && CountAtLeast(s, x) == CountAtLeast(t, x)
    decreases |s|
  {
    if |s| == 0 {
      assert |t| == |multiset(t)| == 0;
    } else {
      var n := |s| - 1;
      var e := s[n];
      assert s == s[..n] + [e];
      assert multiset(s) == multiset(s[..n]) + multiset{e};
      assert e in multiset(t);
      var i :| 0 <= i < |t| && t[i] == e;
      RemoveOne(t, i);
      MoveToEnd(t, i, x);
      var rest := t[..i] + t[i + 1..];
      CountOfPermutation(s[..n], rest, x);
      CountOfAppend(s[..n], [e], x);
      CountOfAppend(rest, [e], x);
    }
  }

  /** Taking out the element at `i` removes one copy of it. */
  lemma RemoveOne(t: seq<real>, i: nat)
    requires i < |t|
    ensures multiset(t[..i] + t[i + 1..]) == multiset(t) - multiset{t[i]}
  {
    assert t == t[..i] + [t[i]] + t[i + 1..];
  }

  /** Moving the element at `i` to the end changes no count. */
  lemma MoveToEnd(t: seq<real>, i: nat, x: real)
    requires i < |t|
    ensures CountAbove(t, x) == CountAbove(t[..i] + t[i + 1..] + [t[i]], x)
    ensures CountAtLeast(t, x) == CountAtLeast(t[..i] + t[i + 1..] + [t[i]], x)
  {
    var e := t[i];
    assert t == t[..i] + [e] + t[i + 1..];
    CountOfAppend(t[..i] + [e], t[i + 1..], x);
    CountOfAppend(t[..i], [e], x);
    CountOfAppend(t[..i], t[i + 1..], x);
    CountOfAppend(t[..i] + t[i + 1..], [e], x);
  }

  lemma {:induction false} CountAboveAtMost(s: seq<real>, x: real, k: nat)
    requires k <= |s|
    requires forall j :: k <= j < |s| ==> s[j] <= x
    ensures CountAbove(s, x) <= k
  {
    if |s| > k {
      CountAboveAtMost(s[..|s| - 1], x, k);
    } else {
      CountsOfExtremes(s, x);
    }
  }

  lemma {:induction false} CountAtLeastAtLeast(s: seq<real>, x: real, k: nat)
    requires k <= |s|
    requires forall j :: 0 <= j < k ==> s[j] >= x
    ensures CountAtLeast(s, x) >= k
  {
    if |s| > 0 {
      var n := |s| - 1;
      if k == |s| {
        CountAtLeastAtLeast(s[..n], x, k - 1);
      } else {
        CountAtLeastAtLeast(s[..n], x, k);
      }
    }
  }

  /** In a sorted permutation of the ratings, the entry at index k is their (k+1)-th highest. */
  lemma SortedIndexIsKthHighest(sorted: seq<real>, ratings: seq<real>, k: nat)
    requires SortedDescending(sorted) && multiset(sorted) == multiset(ratings)
    requires k < |sorted|
    ensures IsKthHighest(ratings, sorted[k], k)
  {
    var x := sorted[k];
    CountAboveAtMost(sorted, x, k);
    CountAtLeastAtLeast(sorted, x, k + 1);
    CountOfPermutation(sorted, ratings, x);
    assert x in multiset(sorted);
  }

  lemma {:induction false} CountsAreMonotone(s: seq<real>, x: real, y: real)
    requires x < y
    ensures CountAtLeast(s, y) <= CountAbove(s, x)
  {
    if |s| > 0 {
      CountsAreMonotone(s[..|s| - 1], x, y);
    }
  }

  /** The k-th highest rating is determined by the ratings alone: the cutoffs do not depend on how the sort orders ties. */
  lemma KthHighestIsUnique(s: seq<real>, x: real, y: real, k: nat)
    requires IsKthHighest(s, x, k) && IsKthHighest(s, y, k)
    ensures x == y
  {
    if x < y {
      CountsAreMonotone(s, x, y);
    } else if y < x {
      CountsAreMonotone(s, y, x);
    }
  }

  // ---------------------------------------------------------------------------
  // Retention

  /** Line 284: a holding is kept while shares are held or while its rating is strictly above the 10th highest. */
  predicate Kept(row: Summary, top10: real) {
    row.totalQuantity > 0.0 || row.quantRating > top10
  }

  function Retain(rows: seq<Summary>, top10: real): (kept: seq<Summary>)
    ensures |kept| <= |rows|
    ensures forall r :: r in kept <==> r in rows && Kept(r, top10)
  {
    if |rows| == 0 then []
    else
      var last := rows[|rows| - 1];
      Retain(rows[..|rows| - 1], top10) + (if Kept(last, top10) then [last] else [])
  }

  /** The QUANT_RATING column. */
  function Ratings(rows: seq<Summary>): (rs: seq<real>)
    ensures |rs| == |rows| && forall i :: 0 <= i < |rows| ==> rs[i] == rows[i].quantRating
  {
    seq(|rows|, i requires 0 <= i < |rows| => rows[i].quantRating)
  }

  /** How many rows hold no shares. */
  function CountUnheld(rows: seq<Summary>): nat {
    if |rows| == 0 then 0
    else CountUnheld(rows[..|rows| - 1]) + (if rows[|rows| - 1].totalQuantity > 0.0 then 0 else 1)
  }

  /**
   * Every retained row without shares is rated strictly above the top-10
   * cutoff, so there are no more of them than ratings above that cutoff.
   */
  lemma {:induction false} UnheldKeptAreRatedAbove(rows: seq<Summary>, top10: real)
    ensures forall r :: r in Retain(rows, top10) && r.totalQuantity <= 0.0 ==> r.quantRating > top10
    ensures CountUnheld(Retain(rows, top10)) <= CountAbove(Ratings(rows), top10)
  {
    if |rows| > 0 {
      var n := |rows| - 1;
      UnheldKeptAreRatedAbove(rows[..n], top10);
      assert Ratings(rows)[..n] == Ratings(rows[..n]);
      var last := rows[n];
      var kept := Retain(rows[..n], top10);
      if Kept(last, top10) {
        assert (kept + [last])[..|kept|] == kept;
      } else {
        assert kept + [] == kept;
      }
    }
  }

  /** Besides the positions still held, at most nine holdings survive the retention filter. */
  lemma AtMostNineUnheldKept(rows: seq<Summary>, top10: real)
    requires IsKthHighest(Ratings(rows), top10, 9)
    ensures CountUnheld(Retain(rows, top10)) <= 9
  {
    UnheldKeptAreRatedAbove(rows, top10);
  }

  // ---------------------------------------------------------------------------
  // Join, values and total

  /** The left join on the ticker: the first analysis row of the ticker, None when it has none. */
  function Lookup(table: seq<AnalysisRow>, ticker: string): (m: Option<AnalysisRow>)
    ensures m.Some? ==> m.value in table && m.value.symbol == ticker
    ensures m.None? <==> forall r :: r in table ==> r.symbol != ticker
  {
    if |table| == 0 then None
    else if table[0].symbol == ticker then Some(table[0])
    else Lookup(table[1..], ticker)
  }

  /** The joined `price`: the market price of a non-Error row, NaN for an Error row or a missing ticker. */
  function PriceOf(m: Option<AnalysisRow>): (p: Ext)
    ensures p.Fin? <==> m.Some? && m.value.Row?
    ensures p.Fin? || p.NaN?
  {
    if m.Some? && m.value.Row? then Fin(m.value.marketPrice) else NaN
  }

  /** Line 302: VALUE, the position's market value in cents; NaN without a price. */
  function PositionValue(quantity: real, price: Ext): (v: Ext)
    requires price.Fin? || price.NaN?
    ensures v.Fin? <==> price.Fin?
    ensures price.NaN? ==> v.NaN?
  {
    RoundExt(Mul(Fin(quantity), price), 2)
  }

  /** What a value contributes to a NaN-skipping sum. */
  function Known(v: Ext): real {
    if v.Fin? then v.v else 0.0
  }

  /** `Series.sum()`, which skips NaN. */
  function SumKnown(values: seq<Ext>): real {
    if |values| == 0 then 0.0 else SumKnown(values[..|values| - 1]) + Known(values[|values| - 1])
  }

  function Valuations(kept: seq<Summary>, table: seq<AnalysisRow>): (vs: seq<Ext>)
    ensures |vs| == |kept|
  {
    seq(|kept|, i requires 0 <= i < |kept| => PositionValue(kept[i].totalQuantity, PriceOf(Lookup(table, kept[i].ticker))))
  }

  /** Line 305: the portfolio total, the known position values plus cash. */
  function PortfolioTotal(kept: seq<Summary>, table: seq<AnalysisRow>, cash: real): (t: real)
    ensures (forall i :: 0 <= i < |kept| ==> !PriceOf(Lookup(table, kept[i].ticker)).Fin?) ==> t == cash
  {
    SumOfUnknown(Valuations(kept, table));
    SumKnown(Valuations(kept, table)) + cash
  }

  /** NaN values add nothing to the sum. */
  lemma {:induction false} SumOfUnknown(values: seq<Ext>)
    ensures (forall i :: 0 <= i < |values| ==> !values[i].Fin?) ==> SumKnown(values) == 0.0
  {
    if |values| > 0 {
      SumOfUnknown(values[..|values| - 1]);
      assert forall i :: 0 <= i < |values| - 1 ==> values[..|values| - 1][i] == values[i];
    }
  }

  /** Lines 323-325: a slot of total x exposure / 20 scaled by rating / 5, and nothing below the cutoff. */
  function DesiredPosition(total: real, exposure: real, rating: real, threshold: real): (d: real)
    ensures rating < threshold ==> d == 0.0
    ensures rating >= threshold ==> d * 100.0 == total * exposure * rating
  {
    if rating < threshold then 0.0 else total * exposure * (1.0 / 20.0) * rating / 5.0
  }

  /** Line 326: the whole number of shares to trade to reach the desired position; NaN without a price. */
  function PositionAdjustment(desired: real, value: Ext, price: Ext): (a: Ext)
    ensures a.NaN? <==> !value.Fin? || !price.Fin? || (price.v == 0.0 && desired == value.v)
  {
    if value.Fin? && price.Fin? then RoundExt(Div(desired - value.v, price.v), 0) else NaN
  }

  /** A retained row after the join and the allocation columns. */
  datatype Holding = Holding(
    ticker: string, totalQuantity: real, quantRating: real, analysis: Option<AnalysisRow>,
    price: Ext, value: Ext, desiredPos: real, posAdjustment: Ext)

  function HoldingOf(row: Summary, table: seq<AnalysisRow>, threshold: real, total: real, exposure: real): (h: Holding)
    ensures h.ticker == row.ticker && h.totalQuantity == row.totalQuantity && h.quantRating == row.quantRating
    ensures h.analysis == Lookup(table, row.ticker)
    ensures h.price.Fin? <==> h.analysis.Some? && h.analysis.value.Row?
    ensures h.value.Fin? <==> h.price.Fin?
  {
    var analysis := Lookup(table, row.ticker);
    var price := PriceOf(analysis);
    var value := PositionValue(row.totalQuantity, price);
    var desired := DesiredPosition(total, exposure, row.quantRating, threshold);
    Holding(row.ticker, row.totalQuantity, row.quantRating, analysis, price, value, desired,
            PositionAdjustment(desired, value, price))
  }

  /** The retained holdings with their allocation columns, given the cutoffs. */
  function Holdings(summary: seq<Summary>, table: seq<AnalysisRow>, c: Cutoffs, exposure: real, cash: real): (hs: seq<Holding>)
    ensures |hs| == |Retain(summary, c.top10)|
    ensures forall i :: 0 <= i < |hs| ==> hs[i].ticker == Retain(summary, c.top10)[i].ticker
  {
    var kept := Retain(summary, c.top10);
    var total := PortfolioTotal(kept, table, cash);
    seq(|kept|, i requires 0 <= i < |kept| => HoldingOf(kept[i], table, c.threshold, total, exposure))
  }

  /**
   * `build_portfolio_df` up to line 326: fails with fewer than 20 holdings,
   * otherwise returns the cutoffs it ranked and the allocated holdings. The
   * source's default arguments (exposure 0.9, cash 0) are ordinary values of
   * `exposure` and `cash` here.
   */
  method BuildPortfolio(summary: seq<Summary>, table: seq<AnalysisRow>, exposure: real, cash: real)
    returns (r: Result<(Cutoffs, seq<Holding>), AllocationFault>)
    ensures r.Failure? <==> |summary| < 20
    ensures r.Success? ==>
      IsKthHighest(Ratings(summary), r.value.0.threshold, 19) && IsKthHighest(Ratings(summary), r.value.0.top10, 9) &&
      r.value.1 == Holdings(summary, table, r.value.0, exposure, cash)
  {
    var cutoffs := QuantCutoffs(Ratings(summary));
    if cutoffs.Failure? {
      return Failure(cutoffs.error);
    }
    r := Success((cutoffs.value, Holdings(summary, table, cutoffs.value, exposure, cash)));
  }

  /** No two rows share a ticker. */
  predicate DistinctTickers(rows: seq<Summary>) {
    forall i, j :: 0 <= i < j < |rows| ==> rows[i].ticker != rows[j].ticker
  }

  /** The retention filter keeps tickers distinct. */
  lemma {:induction false} RetainKeepsDistinctTickers(rows: seq<Summary>, top10: real)
    requires DistinctTickers(rows)
    ensures DistinctTickers(Retain(rows, top10))
  {
    if |rows| > 0 {
      var n := |rows| - 1;
      var p := rows[..n];
      RetainKeepsDistinctTickers(p, top10);
      var kp := Retain(p, top10);
      forall i | 0 <= i < |kp|
        ensures kp[i].ticker != rows[n].ticker
      {
        assert kp[i] in kp;
        var k :| 0 <= k < n && p[k] == kp[i];
        assert rows[k] == p[k];
      }
      var kept := Retain(rows, top10);
      assert kept == kp + (if Kept(rows[n], top10) then [rows[n]] else []);
      forall i, j | 0 <= i < j < |kept|
        ensures kept[i].ticker != kept[j].ticker
      {
        assert kept[i] == kp[i];
        if j < |kp| {
          assert kept[j] == kp[j];
          assert kp[i].ticker != kp[j].ticker;
        } else {
          assert kept[j] == rows[n];
          assert kp[i].ticker != rows[n].ticker;
        }
      }
    }
  }

  /** One holding per ticker: the holdings of a summary with distinct tickers have distinct tickers. */
  lemma HoldingsHaveDistinctTickers(summary: seq<Summary>, table: seq<AnalysisRow>, c: Cutoffs, exposure: real, cash: real)
    requires DistinctTickers(summary)
    ensures var hs := Holdings(summary, table, c, exposure, cash);
      forall i, j :: 0 <= i < j < |hs| ==> hs[i].ticker != hs[j].ticker
  {
    RetainKeepsDistinctTickers(summary, c.top10);
  }

  // ---------------------------------------------------------------------------
  // Properties of the allocation

  /** A holding rated below the cutoff, held long and priced, is never to be bought: its adjustment is at most zero. */
  lemma BelowCutoffNeverBought(row: Summary, table: seq<AnalysisRow>, threshold: real, total: real, exposure: real)
    requires row.quantRating < threshold && row.totalQuantity >= 0.0
    requires Lookup(table, row.ticker).Some? && Lookup(table, row.ticker).value.Row?
    requires Lookup(table, row.ticker).value.marketPrice > 0.0
    ensures var h := HoldingOf(row, table, threshold, total, exposure);
      h.desiredPos == 0.0 && h.posAdjustment.Fin? && h.posAdjustment.v <= 0.0
  {
    var h := HoldingOf(row, table, threshold, total, exposure);
    var p := Lookup(table, row.ticker).value.marketPrice;
    assert h.price == Fin(p);
    assert h.desiredPos == 0.0;
    LongPositionValue(row.totalQuantity, p);
    assert h.value == PositionValue(row.totalQuantity, Fin(p));
    EmptyTargetSells(h.value.v, p);
    assert h.posAdjustment == PositionAdjustment(0.0, h.value, Fin(p));
  }

  lemma LongPositionValue(q: real, p: real)
    requires q >= 0.0 && p > 0.0
    ensures PositionValue(q, Fin(p)).Fin? && PositionValue(q, Fin(p)).v >= 0.0
  {
    NonNegativeProduct(q, p);
    RoundToKeepsSign(q * p, 2);
  }

  lemma EmptyTargetSells(v: real, p: real)
    requires v >= 0.0 && p > 0.0
    ensures PositionAdjustment(0.0, Fin(v), Fin(p)).Fin? && PositionAdjustment(0.0, Fin(v), Fin(p)).v <= 0.0
  {
    NonPositiveQuotient(0.0 - v, p);
    RoundToKeepsSign((0.0 - v) / p, 0);
  }

  lemma NonNegativeProduct(q: real, p: real)
    requires q >= 0.0 && p > 0.0
    ensures q * p >= 0.0
  {
  }

  lemma NonPositiveQuotient(x: real, p: real)
    requires x <= 0.0 && p > 0.0
    ensures x / p <= 0.0
  {
    assert x / p * p == x;
  }

  /**
   * Trading the adjustment brings a priced position to within half a share's
   * price of its desired value.
   */
  lemma AdjustmentReachesDesiredPosition(desired: real, value: real, price: real)
    requires price > 0.0
    ensures var a := PositionAdjustment(desired, Fin(value), Fin(price));
      a.Fin? && desired - price / 2.0 <= value + a.v * price <= desired + price / 2.0
  {
    var x := (desired - value) / price;
    var a := PositionAdjustment(desired, Fin(value), Fin(price));
    assert Div(desired - value, price) == Fin(x);
    assert a == Fin(RoundTo(x, 0));
    RoundToBounds(x, 0);
    HalfShare(desired - value, price, a.v);
  }

  lemma HalfShare(gap: real, price: real, n: real)
    requires price > 0.0
    requires gap / price - 0.5 <= n <= gap / price + 0.5
    ensures gap - price / 2.0 <= n * price <= gap + price / 2.0
  {
    var x := gap / price;
    assert x * price == gap;
    var d := n - x;
    assert n * price - gap == d * price;
    HalfScale(d, price);
  }

  lemma HalfScale(d: real, price: real)
    requires price > 0.0 && -0.5 <= d <= 0.5
    ensures -(price / 2.0) <= d * price <= price / 2.0
  {
    ScaleMonotone(d, 0.5, price);
    ScaleMonotone(-0.5, d, price);
  }

  /** The desired position of a rating on the 0-5 scale is between nothing and one full slot of total x exposure / 20. */
  lemma DesiredPositionWithinSlot(total: real, exposure: real, rating: real, threshold: real)
    requires total * exposure >= 0.0 && 0.0 <= rating <= 5.0
    ensures 0.0 <= DesiredPosition(total, exposure, rating, threshold) <= total * exposure / 20.0
    ensures rating == 5.0 && rating >= threshold ==> DesiredPosition(total, exposure, rating, threshold) == total * exposure / 20.0
  {
    if rating >= threshold {
      var slot := total * exposure * (1.0 / 20.0);
      assert slot == total * exposure / 20.0;
      assert slot * rating / 5.0 == slot * (rating / 5.0);
      FractionOfSlot(slot, rating / 5.0);
    }
  }

  lemma FractionOfSlot(slot: real, f: real)
    requires slot >= 0.0 && 0.0 <= f <= 1.0
    ensures 0.0 <= slot * f <= slot
  {
    assert slot - slot * f == slot * (1.0 - f);
  }

  /** The exact market value of a priced position before rounding to cents, 0 without a price. */
  function ExactRowValue(row: Summary, table: seq<AnalysisRow>): real {
    var p := PriceOf(Lookup(table, row.ticker));
    if p.Fin? then row.totalQuantity * p.v else 0.0
  }

  function ExactValue(kept: seq<Summary>, table: seq<AnalysisRow>): real {
    if |kept| == 0 then 0.0 else ExactValue(kept[..|kept| - 1], table) + ExactRowValue(kept[|kept| - 1], table)
  }

  lemma RowValueWithinRounding(row: Summary, table: seq<AnalysisRow>)
    ensures var v := Known(PositionValue(row.totalQuantity, PriceOf(Lookup(table, row.ticker))));
      -0.005 <= v - ExactRowValue(row, table) <= 0.005
  {
    var p := PriceOf(Lookup(table, row.ticker));
    if p.Fin? {
      var x := row.totalQuantity * p.v;
      assert Mul(Fin(row.totalQuantity), p) == Fin(x);
      assert PositionValue(row.totalQuantity, p) == Fin(RoundTo(x, 2));
      assert ExactRowValue(row, table) == x;
      WithinHalfCent(x);
    } else {
      assert PositionValue(row.totalQuantity, p) == NaN;
    }
  }

  lemma WithinHalfCent(x: real)
    ensures -0.005 <= RoundTo(x, 2) - x <= 0.005
  {
    RoundToBounds(x, 2);
  }

  /** The portfolio total is the exact value of the priced positions plus cash, up to half a cent per position. */
  lemma {:induction false} TotalWithinRounding(kept: seq<Summary>, table: seq<AnalysisRow>, cash: real)
    ensures var d := PortfolioTotal(kept, table, cash) - (ExactValue(kept, table) + cash);
      -0.005 * |kept| as real <= d <= 0.005 * |kept| as real
  {
    if |kept| > 0 {
      var n := |kept| - 1;
      TotalWithinRounding(kept[..n], table, cash);
      var vs := Valuations(kept, table);
      assert vs[..n] == Valuations(kept[..n], table);
      RowValueWithinRounding(kept[n], table);
    }
  }

  /** In a table with one row per ticker, the join finds exactly the ticker's row. */
  lemma LookupInDistinctTable(table: seq<AnalysisRow>, row: AnalysisRow)
    requires forall i, j :: 0 <= i < j < |table| ==> table[i].symbol != table[j].symbol
    requires row in table
    ensures Lookup(table, row.symbol) == Some(row)
  {
    if table[0] != row {
      assert row in table[1..];
      LookupInDistinctTable(table[1..], row);
    }
  }
}
