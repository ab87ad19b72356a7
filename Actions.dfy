/**
 * `buys_and_sells_tables`: the holdings whose position adjustment is large
 * relative to the shares held are split into a table of buys (positive
 * adjustment) and a table of sells (negative adjustment), each keeping a few
 * of the holding's columns.
 */
module Actions {
  import opened Wrappers
  import opened Numeric
  import opened Ledger
  import opened Screen
  import opened AnalysisTable
  import opened Allocation

  /** ACTION: the adjustment is more than a fifth of the shares held (IEEE: a zero holding gives an infinite ratio, a NaN adjustment is never material). */
  function Actionable(h: Holding): (b: bool)
    ensures h.posAdjustment.NaN? || h.posAdjustment == Fin(0.0) ==> !b
    ensures h.totalQuantity == 0.0 && h.posAdjustment.Fin? ==> (b <==> h.posAdjustment.v != 0.0)
  {
    Lt(Fin(0.2), Abs(DivBy(h.posAdjustment, h.totalQuantity)))
  }

  /** A buy is a material positive adjustment. */
  function IsBuy(h: Holding): (b: bool)
    ensures b ==> h.posAdjustment.PosInf? || (h.posAdjustment.Fin? && h.posAdjustment.v > 0.0)
    ensures b ==> !Lt(h.posAdjustment, Fin(0.0))
  {
    Lt(Fin(0.0), h.posAdjustment) && Actionable(h)
  }

  /** A sell is a material negative adjustment. */
  function IsSell(h: Holding): (b: bool)
    ensures b ==> h.posAdjustment.NegInf? || (h.posAdjustment.Fin? && h.posAdjustment.v < 0.0)
    ensures b ==> !Lt(Fin(0.0), h.posAdjustment)
  {
    Lt(h.posAdjustment, Fin(0.0)) && Actionable(h)
  }

  /** The columns joined from the analysis table; None where the join found no row or an Error row. */
  function EntryLow(h: Holding): Option<Ext> {
    if h.analysis.Some? && h.analysis.value.Row? then Some(h.analysis.value.buyThreshold) else None
  }

  function EntryVal(h: Holding): Option<Ext> {
    if h.analysis.Some? && h.analysis.value.Row? then h.analysis.value.grahamThreshold else None
  }

  function Exit(h: Holding): Option<Ext> {
    if h.analysis.Some? && h.analysis.value.Row? then Some(h.analysis.value.exitPrice) else None
  }

  function RatingOf(h: Holding): Option<Decision> {
    if h.analysis.Some? then Some(Rating(h.analysis.value)) else None
  }

  /** A line of the buys table: TICKER, POS_ADJUSTMENT, price, entry_low, entry_val, rating. */
  datatype BuyLine = BuyLine(ticker: string, posAdjustment: Ext, price: Ext, entryLow: Option<Ext>,
                             entryVal: Option<Ext>, rating: Option<Decision>)

  /** A line of the sells table: TICKER, POS_ADJUSTMENT, price, exit, rating. */
  datatype SellLine = SellLine(ticker: string, posAdjustment: Ext, price: Ext, exit: Option<Ext>,
                               rating: Option<Decision>)

  function BuyLineOf(h: Holding): BuyLine {
    BuyLine(h.ticker, h.posAdjustment, h.price, EntryLow(h), EntryVal(h), RatingOf(h))
  }

  function SellLineOf(h: Holding): SellLine {
    SellLine(h.ticker, h.posAdjustment, h.price, Exit(h), RatingOf(h))
  }

  /** The buys table, in the order of the holdings. */
  function Buys(hs: seq<Holding>): (r: seq<BuyLine>)
    ensures |r| <= |hs|
    ensures forall l :: l in r <==> exists i :: 0 <= i < |hs| && IsBuy(hs[i]) && l == BuyLineOf(hs[i])
  {
    if |hs| == 0 then []
    else
      var n := |hs| - 1;
      var r := Buys(hs[..n]) + (if IsBuy(hs[n]) then [BuyLineOf(hs[n])] else []);
      assert forall i :: 0 <= i < n ==> hs[..n][i] == hs[i];
      r
  }

  /** The sells table, in the order of the holdings. */
  function Sells(hs: seq<Holding>): (r: seq<SellLine>)
    ensures |r| <= |hs|
    ensures forall l :: l in r <==> exists i :: 0 <= i < |hs| && IsSell(hs[i]) && l == SellLineOf(hs[i])
  {
    if |hs| == 0 then []
    else
      var n := |hs| - 1;
      var r := Sells(hs[..n]) + (if IsSell(hs[n]) then [SellLineOf(hs[n])] else []);
      assert forall i :: 0 <= i < n ==> hs[..n][i] == hs[i];
      r
  }

  /** The holdings that are in neither table. */
  function Idle(hs: seq<Holding>): (r: seq<Holding>)
    ensures forall h :: h in r <==> h in hs && !IsBuy(h) && !IsSell(h)
  {
    if |hs| == 0 then []
    else
      var n := |hs| - 1;
      assert hs == hs[..n] + [hs[n]];
      Idle(hs[..n]) + (if IsBuy(hs[n]) || IsSell(hs[n]) then [] else [hs[n]])
  }

  // ---------------------------------------------------------------------------
  // Properties of the split

  /** Every holding lands in exactly one of the buys, the sells and the idle rows. */
  lemma {:induction false} SplitIsAPartition(hs: seq<Holding>)
    ensures |Buys(hs)| + |Sells(hs)| + |Idle(hs)| == |hs|
    ensures forall h :: h in hs ==>
      (IsBuy(h) && !IsSell(h) && h !in Idle(hs) && BuyLineOf(h) in Buys(hs)) ||
      (IsSell(h) && !IsBuy(h) && h !in Idle(hs) && SellLineOf(h) in Sells(hs)) ||
      (!IsBuy(h) && !IsSell(h) && h in Idle(hs))
  {
    SplitSizes(hs);
    forall h | h in hs
      ensures (IsBuy(h) ==> BuyLineOf(h) in Buys(hs)) && (IsSell(h) ==> SellLineOf(h) in Sells(hs))
    {
      var i :| 0 <= i < |hs| && hs[i] == h;
    }
  }

  lemma {:induction false} SplitSizes(hs: seq<Holding>)
    ensures |Buys(hs)| + |Sells(hs)| + |Idle(hs)| == |hs|
  {
    if |hs| > 0 {
      var n := |hs| - 1;
      var h := hs[n];
      SplitSizes(hs[..n]);
      assert |Buys(hs)| == |Buys(hs[..n])| + (if IsBuy(h) then 1 else 0);
      assert |Sells(hs)| == |Sells(hs[..n])| + (if IsSell(h) then 1 else 0);
      assert |Idle(hs)| == |Idle(hs[..n])| + (if IsBuy(h) || IsSell(h) then 0 else 1);
      assert !(IsBuy(h) && IsSell(h));
    }
  }

  /** With one holding per ticker, no ticker is both bought and sold. */
  lemma NoTickerBoughtAndSold(hs: seq<Holding>, b: BuyLine, s: SellLine)
    requires forall i, j :: 0 <= i < j < |hs| ==> hs[i].ticker != hs[j].ticker
    requires b in Buys(hs) && s in Sells(hs)
    ensures b.ticker != s.ticker
  {
    var i :| 0 <= i < |hs| && IsBuy(hs[i]) && b == BuyLineOf(hs[i]);
    var j :| 0 <= j < |hs| && IsSell(hs[j]) && s == SellLineOf(hs[j]);
    assert i != j;
  }

  /** Over the holdings built from a ledger's summary no ticker is both bought and sold. */
  lemma NoLedgerTickerBoughtAndSold(ledger: seq<Transaction>, ref: int, table: seq<AnalysisRow>, c: Cutoffs,
                                    exposure: real, cash: real, b: BuyLine, s: SellLine)
    requires var hs := Holdings(Summarize(ledger, ref), table, c, exposure, cash);
      b in Buys(hs) && s in Sells(hs)
    ensures b.ticker != s.ticker
  {
    OneRowPerDistinctTicker(ledger, ref);
    HoldingsHaveDistinctTickers(Summarize(ledger, ref), table, c, exposure, cash);
    NoTickerBoughtAndSold(Holdings(Summarize(ledger, ref), table, c, exposure, cash), b, s);
  }

  /** For a nonzero holding and a finite adjustment, the gate is |adjustment| > 0.2 * |quantity|, strictly. */
  lemma ActionableIff(h: Holding)
    requires h.totalQuantity != 0.0 && h.posAdjustment.Fin?
    ensures Actionable(h) <==> AbsReal(h.posAdjustment.v) > 0.2 * AbsReal(h.totalQuantity)
  {
    var a, q := h.posAdjustment.v, h.totalQuantity;
    RatioAbove(a, q);
  }

  lemma RatioAbove(a: real, q: real)
    requires q != 0.0
    ensures AbsReal(a / q) > 0.2 <==> AbsReal(a) > 0.2 * AbsReal(q)
  {
    var r := a / q;
    assert a == r * q;
    AbsOfProduct(r, q);
    ScaledAbove(AbsReal(r), AbsReal(q), AbsReal(a));
  }

  lemma AbsOfProduct(r: real, q: real)
    ensures AbsReal(r * q) == AbsReal(r) * AbsReal(q)
  {
    if r < 0.0 && q < 0.0 {
      assert r * q == (-r) * (-q);
    } else if r < 0.0 {
      assert -(r * q) == (-r) * q;
    } else if q < 0.0 {
      assert -(r * q) == r * (-q);
    } else {
      assert r * q >= 0.0;
    }
  }

  lemma ScaledAbove(x: real, s: real, p: real)
    requires s > 0.0 && p == x * s
    ensures x > 0.2 <==> p > 0.2 * s
  {
    assert p - 0.2 * s == (x - 0.2) * s;
  }

  /** A position not held but with a trade to make is always material: the ratio is infinite. */
  lemma UnheldTradeIsActionable(h: Holding)
    requires h.totalQuantity == 0.0 && h.posAdjustment.Fin? && h.posAdjustment.v != 0.0
    ensures Actionable(h)
    ensures h.posAdjustment.v > 0.0 ==> IsBuy(h)
    ensures h.posAdjustment.v < 0.0 ==> IsSell(h)
  {
  }

  /** An adjustment of exactly a fifth of the shares held is not material. */
  lemma FifthIsNotActionable(h: Holding)
    requires h.totalQuantity > 0.0 && h.posAdjustment == Fin(0.2 * h.totalQuantity)
    ensures !Actionable(h)
    ensures !IsBuy(h) && !IsSell(h)
  {
    ActionableIff(h);
  }

  /** A holding without a price (NaN adjustment), or with nothing to trade, is in neither table. */
  lemma NothingToTradeIsIdle(h: Holding)
    requires h.posAdjustment.NaN? || h.posAdjustment == Fin(0.0)
    ensures !IsBuy(h) && !IsSell(h)
  {
  }

  /** A long holding rated below the cutoff with a positive price never appears among the buys. */
  lemma BelowCutoffNeverInBuys(row: Summary, table: seq<AnalysisRow>, threshold: real, total: real, exposure: real)
    requires row.quantRating < threshold && row.totalQuantity >= 0.0
    requires Lookup(table, row.ticker).Some? && Lookup(table, row.ticker).value.Row?
    requires Lookup(table, row.ticker).value.marketPrice > 0.0
    ensures !IsBuy(HoldingOf(row, table, threshold, total, exposure))
  {
    BelowCutoffNeverBought(row, table, threshold, total, exposure);
  }

  /** A buy line carries the entry thresholds and rating of the holding's analysis row. */
  lemma BuyLineCarriesAnalysis(h: Holding)
    requires h.analysis.Some? && h.analysis.value.Row?
    ensures var l := BuyLineOf(h); var a := h.analysis.value;
      l.entryLow == Some(a.buyThreshold) && l.entryVal == a.grahamThreshold && l.rating == Some(a.decision)
  {
  }
}
