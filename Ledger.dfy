/**
 * The portfolio summariser (`summarize_portfolio`): groups a transaction ledger
 * by ticker into one summary row per distinct ticker, with total quantity,
 * total cost, average purchase price and a cost-weighted purchase date.
 *
 * Dates are whole day numbers counted from 1970-01-01, the epoch pandas
 * rounds timestamps against; the reference date is a parameter (the source
 * defaults it to today's date).
 */
module Ledger {
  import opened Wrappers
  import opened Seqs
  import opened Numeric

  /** One ledger line: `quantity` shares of `ticker` bought at `purchasePrice` on day `acquired`. */
  datatype Transaction = Transaction(
    id: int,
    ticker: string,
    assetClass: string,
    sector: string,
    acquired: int,
    purchasePrice: real,
    quantity: real,
    quantRating: real,
    alphaPicked: string)

  /**
   * One row of the summary. `None` stands for the non-finite value pandas
   * produces when a divisor is zero: `avgPurchasePrice` when the total quantity
   * is 0, `weightedAvgPurchaseDate` when the total cost is 0.
   */
  datatype Summary = Summary(
    ticker: string,
    alphaPicked: string,
    quantRating: real,
    assetClass: string,
    sector: string,
    weightedAvgPurchaseDate: Option<int>,
    totalCost: real,
    totalQuantity: real,
    avgPurchasePrice: Option<real>)

  function Quantity(t: Transaction): real { t.quantity }

  /** The COST column: price times quantity. */
  function Cost(t: Transaction): real { t.purchasePrice * t.quantity }

  /** The DAYS_SINCE_REF column. */
  function DaysSinceRef(t: Transaction, ref: int): int { t.acquired - ref }

  /** The sum of `f` over a sequence of transactions. */
  function Sum(txs: seq<Transaction>, f: Transaction -> real): real {
    if |txs| == 0 then 0.0 else Sum(txs[..|txs| - 1], f) + f(txs[|txs| - 1])
  }

  /** The sum of `w` times the days since `ref`; with `w` = Cost, the sum of the WEIGHTED_DAYS column. */
  function WeightedDaysSum(txs: seq<Transaction>, w: Transaction -> real, ref: int): real {
    if |txs| == 0 then 0.0
    else WeightedDaysSum(txs[..|txs| - 1], w, ref) + w(txs[|txs| - 1]) * DaysSinceRef(txs[|txs| - 1], ref) as real
  }

  /** The TICKER column. */
  function TickersOf(ledger: seq<Transaction>): (r: seq<string>)
    ensures |r| == |ledger| && forall k :: 0 <= k < |ledger| ==> r[k] == ledger[k].ticker
  {
    seq(|ledger|, k requires 0 <= k < |ledger| => ledger[k].ticker)
  }

  /** The transactions of one ticker, in ledger order (one `groupby` group). */
  function GroupOf(ledger: seq<Transaction>, t: string): (g: seq<Transaction>)
    ensures forall x :: x in g ==> x in ledger && x.ticker == t
    ensures forall k :: 0 <= k < |ledger| && ledger[k].ticker == t ==> ledger[k] in g
  {
    if |ledger| == 0 then []
    else
      var n := |ledger| - 1;
      assert ledger == ledger[..n] + [ledger[n]];
      GroupOf(ledger[..n], t) + (if ledger[n].ticker == t then [ledger[n]] else [])
  }

  /** The summary row of ticker `t`: first-seen attributes, sums, and the two ratios. */
  function SummarizeTicker(ledger: seq<Transaction>, t: string, ref: int): Summary
    requires t in TickersOf(ledger)
  {
    GroupNonEmpty(ledger, t);
    var g := GroupOf(ledger, t);
    Summary(
      t, g[0].alphaPicked, g[0].quantRating, g[0].assetClass, g[0].sector,
      WeightedDate(g, ref), Sum(g, Cost), Sum(g, Quantity), AveragePrice(g))
  }

  /**
   * The cost-weighted mean purchase date, `ref` plus the mean offset, rounded
   * to a whole day half-to-even on the day count from the epoch (so a tie goes
   * to the even epoch day, whatever `ref` is); None when the total cost is zero.
   */
  function WeightedDate(g: seq<Transaction>, ref: int): (r: Option<int>)
    ensures r.Some? <==> Sum(g, Cost) != 0.0
    ensures r.Some? ==> var mean := ref as real + WeightedDaysSum(g, Cost, ref) / Sum(g, Cost);
      mean - 0.5 <= r.value as real <= mean + 0.5
  {
    var totalCost := Sum(g, Cost);
    if totalCost == 0.0 then None else Some(RoundHalfEven(ref as real + WeightedDaysSum(g, Cost, ref) / totalCost))
  }

  /** Total cost over total quantity, rounded to 3 decimals; None when the total quantity is zero. */
  function AveragePrice(g: seq<Transaction>): (r: Option<real>)
    ensures r.Some? <==> Sum(g, Quantity) != 0.0
    ensures r.Some? ==> RoundTo(r.value, 3) == r.value
  {
    var totalQuantity := Sum(g, Quantity);
    if totalQuantity == 0.0 then None
    else
      var avg := Sum(g, Cost) / totalQuantity;
      RoundToIdempotent(avg, 3);
      Some(RoundTo(avg, 3))
  }

  /** The summary rows of the tickers `us`, in that order. */
  function SummarizeAll(ledger: seq<Transaction>, us: seq<string>, ref: int): (rows: seq<Summary>)
    requires forall t :: t in us ==> t in TickersOf(ledger)
    ensures |rows| == |us|
    ensures forall i :: 0 <= i < |us| ==> rows[i] == SummarizeTicker(ledger, us[i], ref)
  {
    seq(|us|, i requires 0 <= i < |us| => SummarizeTicker(ledger, us[i], ref))
  }

  /** `summarize_portfolio`: one row per distinct ticker, in order of first appearance. */
  function Summarize(ledger: seq<Transaction>, ref: int): (rows: seq<Summary>)
    ensures |rows| == |Unique(TickersOf(ledger))|
    ensures forall i :: 0 <= i < |rows| ==> rows[i] == SummarizeTicker(ledger, Unique(TickersOf(ledger))[i], ref)
  {
    SummarizeAll(ledger, Unique(TickersOf(ledger)), ref)
  }

  lemma SummaryTickers(ledger: seq<Transaction>, ref: int, i: int)
    requires 0 <= i < |Summarize(ledger, ref)|
    ensures Summarize(ledger, ref)[i].ticker == Unique(TickersOf(ledger))[i]
  {
    var t := Unique(TickersOf(ledger))[i];
    assert SummarizeTicker(ledger, t, ref).ticker == t;
  }

  /**
   * The summary has exactly one row per distinct ticker of the ledger: row
   * tickers are pairwise different, every ledger ticker has a row, and every
   * row's ticker occurs in the ledger.
   */
  lemma OneRowPerDistinctTicker(ledger: seq<Transaction>, ref: int)
    ensures var rows := Summarize(ledger, ref);
      (forall i, j :: 0 <= i < j < |rows| ==> rows[i].ticker != rows[j].ticker) &&
      (forall k :: 0 <= k < |ledger| ==> exists i :: 0 <= i < |rows| && rows[i].ticker == ledger[k].ticker) &&
      (forall i :: 0 <= i < |rows| ==> rows[i].ticker in TickersOf(ledger))
  {
    var rows := Summarize(ledger, ref);
    var us := Unique(TickersOf(ledger));
    forall i | 0 <= i < |rows| ensures rows[i].ticker == us[i] {
      SummaryTickers(ledger, ref, i);
    }
    forall k | 0 <= k < |ledger| ensures exists i :: 0 <= i < |rows| && rows[i].ticker == ledger[k].ticker {
      assert TickersOf(ledger)[k] == ledger[k].ticker;
      var i := FirstIndex(us, ledger[k].ticker);
      assert rows[i].ticker == ledger[k].ticker;
    }
  }

  // ---------------------------------------------------------------------------
  // Groups

  lemma GroupNonEmpty(ledger: seq<Transaction>, t: string)
    requires t in TickersOf(ledger)
    ensures |GroupOf(ledger, t)| > 0
  {
    var k :| 0 <= k < |ledger| && TickersOf(ledger)[k] == t;
    assert ledger[k] in GroupOf(ledger, t);
  }

  lemma GroupOfAbsent(ledger: seq<Transaction>, t: string)
    requires t !in TickersOf(ledger)
    ensures GroupOf(ledger, t) == []
  {
    if |ledger| > 0 {
      var n := |ledger| - 1;
      assert TickersOf(ledger[..n]) == TickersOf(ledger)[..n];
      assert TickersOf(ledger)[n] == ledger[n].ticker;
      GroupOfAbsent(ledger[..n], t);
    }
  }

  /** The first transaction of a group is the ledger's first transaction of that ticker. */
  lemma {:induction false} GroupStartsAtFirstOccurrence(ledger: seq<Transaction>, t: string)
    requires t in TickersOf(ledger)
    ensures |GroupOf(ledger, t)| > 0
    ensures GroupOf(ledger, t)[0] == ledger[FirstIndex(TickersOf(ledger), t)]
  {
    GroupNonEmpty(ledger, t);
    var n := |ledger| - 1;
    var p := ledger[..n];
    assert TickersOf(ledger) == TickersOf(p) + [ledger[n].ticker];
    if t in TickersOf(p) {
      GroupStartsAtFirstOccurrence(p, t);
      FirstIndexOfPrefix(TickersOf(ledger), n, t);
      assert TickersOf(ledger)[..n] == TickersOf(p);
    } else {
      GroupOfAbsent(p, t);
      assert GroupOf(ledger, t) == [ledger[n]];
      assert TickersOf(ledger)[..n] == TickersOf(p);
      FirstIndexOfNewcomer(TickersOf(ledger));
    }
  }

  // ---------------------------------------------------------------------------
  // Conservation: the group sums add up to the ledger's sums

  /** The sum of `f` over the groups of the tickers `us`. */
  function SumGroups(ledger: seq<Transaction>, us: seq<string>, f: Transaction -> real): real {
    if |us| == 0 then 0.0 else SumGroups(ledger, us[..|us| - 1], f) + Sum(GroupOf(ledger, us[|us| - 1]), f)
  }

  lemma SumOfAppend(g: seq<Transaction>, h: seq<Transaction>, f: Transaction -> real)
    requires |h| <= 1
    ensures Sum(g + h, f) == Sum(g, f) + (if |h| == 1 then f(h[0]) else 0.0)
  {
    if |h| == 1 {
      assert (g + h)[..|g + h| - 1] == g;
    } else {
      assert g + h == g;
    }
  }

  lemma {:induction false} SumGroupsOfSnoc(p: seq<Transaction>, x: Transaction, us: seq<string>, f: Transaction -> real)
    requires Distinct(us)
    ensures SumGroups(p + [x], us, f) == SumGroups(p, us, f) + (if x.ticker in us then f(x) else 0.0)
  {
    if |us| > 0 {
      var m := |us| - 1;
      var pre, u := us[..m], us[m];
      LastOfDistinct(us, x.ticker);
      SumGroupsOfSnoc(p, x, pre, f);
      GroupSumOfSnoc(p, x, u, f);
      var inPre, isLast := x.ticker in pre, x.ticker == u;
      var before, after := SumGroups(p, pre, f), SumGroups(p + [x], pre, f);
      var group, group' := Sum(GroupOf(p, u), f), Sum(GroupOf(p + [x], u), f);
      assert after == before + (if inPre then f(x) else 0.0);
      assert group' == group + (if isLast then f(x) else 0.0);
      assert !(inPre && isLast);
      assert SumGroups(p + [x], us, f) == after + group';
      assert SumGroups(p, us, f) == before + group;
    }
  }

  lemma GroupSumOfSnoc(p: seq<Transaction>, x: Transaction, t: string, f: Transaction -> real)
    ensures Sum(GroupOf(p + [x], t), f) == Sum(GroupOf(p, t), f) + (if x.ticker == t then f(x) else 0.0)
  {
    GroupOfSnoc(p, x, t);
    SumOfAppend(GroupOf(p, t), if x.ticker == t then [x] else [], f);
  }

  /** Splitting off the last of distinct tickers: membership is in the prefix or the last one, never both. */
  lemma LastOfDistinct(us: seq<string>, t: string)
    requires |us| > 0 && Distinct(us)
    ensures Distinct(us[..|us| - 1])
    ensures t in us <==> t in us[..|us| - 1] || t == us[|us| - 1]
    ensures t == us[|us| - 1] ==> t !in us[..|us| - 1]
  {
    var m := |us| - 1;
    assert forall i :: 0 <= i < m ==> us[..m][i] == us[i];
    assert us == us[..m] + [us[m]];
  }

  lemma GroupOfSnoc(p: seq<Transaction>, x: Transaction, t: string)
    ensures GroupOf(p + [x], t) == GroupOf(p, t) + (if x.ticker == t then [x] else [])
  {
    var l := p + [x];
    assert l[..|l| - 1] == p;
  }

  /** Summing `f` group by group over the distinct tickers gives the sum over the whole ledger. */
  lemma {:induction false} GroupSumsAddUp(ledger: seq<Transaction>, f: Transaction -> real)
    ensures SumGroups(ledger, Unique(TickersOf(ledger)), f) == Sum(ledger, f)
  {
    if |ledger| > 0 {
      var n := |ledger| - 1;
      var p, x := ledger[..n], ledger[n];
      assert ledger == p + [x];
      var u := Unique(TickersOf(p));
      GroupSumsAddUp(p, f);
      SumGroupsOfSnoc(p, x, u, f);
      assert Sum(ledger, f) == Sum(p, f) + f(x);
      UniqueOfTickersSnoc(ledger);
      if x.ticker !in u {
        SumGroupsOfNewTicker(p, x, u, f);
      }
    }
  }

  lemma UniqueOfTickersSnoc(ledger: seq<Transaction>)
    requires |ledger| > 0
    ensures var n := |ledger| - 1;
      var u := Unique(TickersOf(ledger[..n]));
      Unique(TickersOf(ledger)) == if ledger[n].ticker in u then u else u + [ledger[n].ticker]
  {
    var n := |ledger| - 1;
    assert TickersOf(ledger)[..n] == TickersOf(ledger[..n]);
  }

  lemma SumGroupsOfNewTicker(p: seq<Transaction>, x: Transaction, u: seq<string>, f: Transaction -> real)
    requires x.ticker !in TickersOf(p)
    ensures SumGroups(p + [x], u + [x.ticker], f) == SumGroups(p + [x], u, f) + f(x)
  {
    var l, v := p + [x], u + [x.ticker];
    assert v[..|v| - 1] == u;
    assert SumGroups(l, v, f) == SumGroups(l, u, f) + Sum(GroupOf(l, x.ticker), f);
    GroupOfAbsent(p, x.ticker);
    assert l[..|l| - 1] == p;
    assert GroupOf(l, x.ticker) == [x];
    assert [x][..0] == [];
    assert Sum([x], f) == f(x);
  }

  function TotalQuantityOf(rows: seq<Summary>): real {
    if |rows| == 0 then 0.0 else TotalQuantityOf(rows[..|rows| - 1]) + rows[|rows| - 1].totalQuantity
  }

  function TotalCostOf(rows: seq<Summary>): real {
    if |rows| == 0 then 0.0 else TotalCostOf(rows[..|rows| - 1]) + rows[|rows| - 1].totalCost
  }

  lemma {:induction false} RowTotalsAreGroupSums(ledger: seq<Transaction>, us: seq<string>, ref: int)
    requires forall t :: t in us ==> t in TickersOf(ledger)
    ensures TotalQuantityOf(SummarizeAll(ledger, us, ref)) == SumGroups(ledger, us, Quantity)
    ensures TotalCostOf(SummarizeAll(ledger, us, ref)) == SumGroups(ledger, us, Cost)
  {
    if |us| > 0 {
      var rows := SummarizeAll(ledger, us, ref);
      assert rows[..|us| - 1] == SummarizeAll(ledger, us[..|us| - 1], ref);
      RowTotalsAreGroupSums(ledger, us[..|us| - 1], ref);
    }
  }

  /** The summary conserves shares and money: its totals add up to the ledger's. */
  lemma TotalsConserved(ledger: seq<Transaction>, ref: int)
    ensures TotalQuantityOf(Summarize(ledger, ref)) == Sum(ledger, Quantity)
    ensures TotalCostOf(Summarize(ledger, ref)) == Sum(ledger, Cost)
  {
    var us := Unique(TickersOf(ledger));
    RowTotalsAreGroupSums(ledger, us, ref);
    GroupSumsAddUp(ledger, Quantity);
    GroupSumsAddUp(ledger, Cost);
  }

  // ---------------------------------------------------------------------------
  // What each summary row holds

  /**
   * Row `i` describes its ticker's transactions: the categorical attributes are
   * those of the ledger's first transaction of that ticker, the totals are the
   * sums of QUANTITY and of PURCHASE_PRICE x QUANTITY over them, and the average
   * price is defined exactly when the total quantity is not zero and is then
   * TOTAL_COST / TOTAL_QUANTITY rounded to 3 decimals.
   */
  lemma SummaryRowContents(ledger: seq<Transaction>, ref: int, i: nat)
    requires i < |Summarize(ledger, ref)|
    ensures var r := Summarize(ledger, ref)[i];
      var first := ledger[FirstIndex(TickersOf(ledger), r.ticker)];
      && r.assetClass == first.assetClass
      && r.alphaPicked == first.alphaPicked
      && r.quantRating == first.quantRating
      && r.sector == first.sector
      && r.totalQuantity == Sum(GroupOf(ledger, r.ticker), Quantity)
      && r.totalCost == Sum(GroupOf(ledger, r.ticker), Cost)
      && (r.avgPurchasePrice.Some? <==> r.totalQuantity != 0.0)
      && (r.avgPurchasePrice.Some? ==>
            -0.0005 <= r.avgPurchasePrice.value - r.totalCost / r.totalQuantity <= 0.0005)
  {
    var t := Summarize(ledger, ref)[i].ticker;
    assert Summarize(ledger, ref)[i] == SummarizeTicker(ledger, t, ref);
    TickerRowContents(ledger, t, ref);
  }

  lemma TickerRowContents(ledger: seq<Transaction>, t: string, ref: int)
    requires t in TickersOf(ledger)
    ensures var r := SummarizeTicker(ledger, t, ref);
      var first := ledger[FirstIndex(TickersOf(ledger), t)];
      && r.ticker == t
      && r.assetClass == first.assetClass
      && r.alphaPicked == first.alphaPicked
      && r.quantRating == first.quantRating
      && r.sector == first.sector
      && r.totalQuantity == Sum(GroupOf(ledger, t), Quantity)
      && r.totalCost == Sum(GroupOf(ledger, t), Cost)
      && (r.avgPurchasePrice.Some? <==> r.totalQuantity != 0.0)
      && (r.avgPurchasePrice.Some? ==>
            -0.0005 <= r.avgPurchasePrice.value - r.totalCost / r.totalQuantity <= 0.0005)
  {
    GroupStartsAtFirstOccurrence(ledger, t);
    AveragePriceWithinRounding(GroupOf(ledger, t));
  }

  /** The average price is defined exactly when the quantities do not cancel, and is within rounding of cost / quantity. */
  lemma AveragePriceWithinRounding(g: seq<Transaction>)
    ensures AveragePrice(g).Some? <==> Sum(g, Quantity) != 0.0
    ensures AveragePrice(g).Some? ==>
      -0.0005 <= AveragePrice(g).value - Sum(g, Cost) / Sum(g, Quantity) <= 0.0005
  {
    if Sum(g, Quantity) != 0.0 {
      RoundToBounds(Sum(g, Cost) / Sum(g, Quantity), 3);
    }
  }

  /** With non-negative weights, the weighted day sum is at least the earliest day times the total weight. */
  lemma {:induction false} WeightedDaysAtLeast(g: seq<Transaction>, w: Transaction -> real, ref: int, lo: int)
    requires forall i :: 0 <= i < |g| ==> w(g[i]) >= 0.0 && lo <= g[i].acquired
    ensures (lo - ref) as real * Sum(g, w) <= WeightedDaysSum(g, w, ref)
  {
    if |g| > 0 {
      var n := |g| - 1;
      WeightedDaysAtLeast(g[..n], w, ref, lo);
      LowerStep((lo - ref) as real, w(g[n]), DaysSinceRef(g[n], ref) as real,
        Sum(g[..n], w), WeightedDaysSum(g[..n], w, ref), Sum(g, w), WeightedDaysSum(g, w, ref));
    }
  }

  /** With non-negative weights, the weighted day sum is at most the latest day times the total weight. */
  lemma {:induction false} WeightedDaysAtMost(g: seq<Transaction>, w: Transaction -> real, ref: int, hi: int)
    requires forall i :: 0 <= i < |g| ==> w(g[i]) >= 0.0 && g[i].acquired <= hi
    ensures WeightedDaysSum(g, w, ref) <= (hi - ref) as real * Sum(g, w)
  {
    if |g| > 0 {
      var n := |g| - 1;
      WeightedDaysAtMost(g[..n], w, ref, hi);
      UpperStep((hi - ref) as real, w(g[n]), DaysSinceRef(g[n], ref) as real,
        Sum(g[..n], w), WeightedDaysSum(g[..n], w, ref), Sum(g, w), WeightedDaysSum(g, w, ref));
    }
  }

  /** One induction step: adding a weight `c` at a day `d` no earlier than `a` keeps the sum above `a` times the total. */
  lemma LowerStep(a: real, c: real, d: real, sp: real, wp: real, s: real, w: real)
    requires c >= 0.0 && a <= d
    requires a * sp <= wp
    requires s == sp + c && w == wp + c * d
    ensures a * s <= w
  {
    assert c * d - c * a == c * (d - a);
    assert a * s == a * sp + a * c;
  }

  /** The mirror image of `LowerStep`. */
  lemma UpperStep(b: real, c: real, d: real, sp: real, wp: real, s: real, w: real)
    requires c >= 0.0 && d <= b
    requires wp <= b * sp
    requires s == sp + c && w == wp + c * d
    ensures w <= b * s
  {
    assert c * b - c * d == c * (b - d);
    assert b * s == b * sp + b * c;
  }

  lemma {:induction false} SumOfPositives(g: seq<Transaction>, w: Transaction -> real)
    requires |g| > 0 && forall i :: 0 <= i < |g| ==> w(g[i]) > 0.0
    ensures Sum(g, w) > 0.0
  {
    var n := |g| - 1;
    if n > 0 {
      SumOfPositives(g[..n], w);
    }
  }

  lemma MeanBetween(w: real, s: real, a: real, b: real)
    requires s > 0.0 && a * s <= w <= b * s
    ensures a <= w / s <= b
  {
    assert w / s - a == (w - a * s) / s;
    assert b - w / s == (b * s - w) / s;
  }

  /** The cost-weighted mean of the days since `ref` lies between the extreme days. */
  lemma WeightedMeanWithin(g: seq<Transaction>, ref: int, lo: int, hi: int)
    requires |g| > 0
    requires forall i :: 0 <= i < |g| ==> Cost(g[i]) > 0.0 && lo <= g[i].acquired <= hi
    ensures Sum(g, Cost) > 0.0
    ensures (lo - ref) as real <= WeightedDaysSum(g, Cost, ref) / Sum(g, Cost) <= (hi - ref) as real
  {
    SumOfPositives(g, Cost);
    WeightedDaysAtLeast(g, Cost, ref, lo);
    WeightedDaysAtMost(g, Cost, ref, hi);
    var total, weighted := Sum(g, Cost), WeightedDaysSum(g, Cost, ref);
    var a, b := (lo - ref) as real, (hi - ref) as real;
    assert a * total <= weighted <= b * total;
    MeanBetween(weighted, total, a, b);
  }

  /** The weighted date of one ticker's row, from the bounds on its purchases. */
  lemma TickerWeightedDateWithin(ledger: seq<Transaction>, t: string, ref: int, lo: int, hi: int)
    requires t in TickersOf(ledger)
    requires forall x :: x in GroupOf(ledger, t) ==> Cost(x) > 0.0 && lo <= x.acquired <= hi
    ensures SummarizeTicker(ledger, t, ref).weightedAvgPurchaseDate.Some?
    ensures lo <= SummarizeTicker(ledger, t, ref).weightedAvgPurchaseDate.value <= hi
  {
    var g := GroupOf(ledger, t);
    GroupNonEmpty(ledger, t);
    assert forall i :: 0 <= i < |g| ==> g[i] in g;
    WeightedDateWithin(g, ref, lo, hi);
    assert SummarizeTicker(ledger, t, ref).weightedAvgPurchaseDate == WeightedDate(g, ref);
  }

  lemma WeightedDateWithin(g: seq<Transaction>, ref: int, lo: int, hi: int)
    requires |g| > 0
    requires forall i :: 0 <= i < |g| ==> Cost(g[i]) > 0.0 && lo <= g[i].acquired <= hi
    ensures WeightedDate(g, ref).Some? && lo <= WeightedDate(g, ref).value <= hi
  {
    WeightedMeanWithin(g, ref, lo, hi);
    var total, weighted := Sum(g, Cost), WeightedDaysSum(g, Cost, ref);
    RoundHalfEvenWithin(ref as real + weighted / total, lo, hi);
  }

  /**
   * When every purchase of a ticker has a positive cost, its weighted average
   * purchase date exists and, even after rounding to the nearest day, lies
   * between the earliest and the latest purchase date of that ticker.
   */
  lemma WeightedDateWithinPurchaseDates(ledger: seq<Transaction>, ref: int, i: nat, lo: int, hi: int)
    requires i < |Summarize(ledger, ref)|
    requires forall k :: 0 <= k < |ledger| && ledger[k].ticker == Summarize(ledger, ref)[i].ticker ==>
               Cost(ledger[k]) > 0.0 && lo <= ledger[k].acquired <= hi
    ensures Summarize(ledger, ref)[i].weightedAvgPurchaseDate.Some?
    ensures lo <= Summarize(ledger, ref)[i].weightedAvgPurchaseDate.value <= hi
  {
    var t := Summarize(ledger, ref)[i].ticker;
    assert Summarize(ledger, ref)[i] == SummarizeTicker(ledger, t, ref);
    forall x | x in GroupOf(ledger, t) ensures Cost(x) > 0.0 && lo <= x.acquired <= hi {
      var k :| 0 <= k < |ledger| && ledger[k] == x;
    }
    TickerWeightedDateWithin(ledger, t, ref, lo, hi);
  }

  /** A ledger of two purchases of one ticker summarises to a single row over both. */
  lemma TwoPurchasesOneRow(a: Transaction, b: Transaction, ref: int)
    requires a.ticker == b.ticker
    ensures a.ticker in TickersOf([a, b])
    ensures Summarize([a, b], ref) == [SummarizeTicker([a, b], a.ticker, ref)]
    ensures GroupOf([a, b], a.ticker) == [a, b]
  {
    TwoPurchasesOneTicker(a, b);
    assert TickersOf([a, b])[0] == a.ticker;
    TwoPurchasesOneGroup(a, b);
    SummaryOfOneTicker([a, b], a.ticker, ref);
  }

  lemma SummaryOfOneTicker(ledger: seq<Transaction>, t: string, ref: int)
    requires Unique(TickersOf(ledger)) == [t]
    ensures Summarize(ledger, ref) == [SummarizeTicker(ledger, t, ref)]
  {
    var rows := Summarize(ledger, ref);
    assert |rows| == 1 && rows[0] == SummarizeTicker(ledger, t, ref);
    assert rows == [rows[0]];
  }

  lemma TwoPurchasesOneGroup(a: Transaction, b: Transaction)
    requires a.ticker == b.ticker
    ensures GroupOf([a, b], a.ticker) == [a, b]
  {
    var l, t := [a, b], a.ticker;
    assert l[..1] == [a];
    assert [a][..0] == [];
    assert GroupOf([a], t) == GroupOf([], t) + [a];
    assert GroupOf(l, t) == GroupOf([a], t) + [b];
  }

  lemma TwoPurchasesOneTicker(a: Transaction, b: Transaction)
    requires a.ticker == b.ticker
    ensures TickersOf([a, b]) == [a.ticker, a.ticker]
    ensures Unique(TickersOf([a, b])) == [a.ticker]
  {
    var l := [a, b];
    assert TickersOf(l) == [a.ticker, a.ticker];
    assert TickersOf(l)[..1] == [a.ticker];
    assert [a.ticker][..0] == [];
  }

  /** A ticker bought twice: its average price is (p1 q1 + p2 q2) / (q1 + q2), rounded to 3 decimals. */
  lemma TwoPurchasesAverage(a: Transaction, b: Transaction, ref: int)
    requires a.ticker == b.ticker && a.quantity + b.quantity != 0.0
    ensures |Summarize([a, b], ref)| == 1
    ensures Summarize([a, b], ref)[0].totalQuantity == a.quantity + b.quantity
    ensures Summarize([a, b], ref)[0].avgPurchasePrice ==
      Some(RoundTo((a.purchasePrice * a.quantity + b.purchasePrice * b.quantity) / (a.quantity + b.quantity), 3))
  {
    TwoPurchasesOneRow(a, b, ref);
    TwoPurchaseSums(a, b);
  }

  lemma TwoPurchaseSums(a: Transaction, b: Transaction)
    ensures Sum([a, b], Quantity) == a.quantity + b.quantity
    ensures Sum([a, b], Cost) == a.purchasePrice * a.quantity + b.purchasePrice * b.quantity
  {
    var g := [a, b];
    assert g[..1] == [a] && [a][..0] == [];
    assert Sum([a], Quantity) == a.quantity;
    assert Sum([a], Cost) == Cost(a);
  }

  lemma TwoPurchaseWeightedDays(a: Transaction, b: Transaction, ref: int)
    ensures WeightedDaysSum([a, b], Cost, ref) ==
      Cost(a) * DaysSinceRef(a, ref) as real + Cost(b) * DaysSinceRef(b, ref) as real
  {
    var g := [a, b];
    assert g[..1] == [a] && [a][..0] == [];
    assert WeightedDaysSum([a], Cost, ref) == Cost(a) * DaysSinceRef(a, ref) as real;
  }

  /** The one summary row of two purchases of a ticker: the first purchase's attributes and the pair's aggregates. */
  lemma TwoPurchasesRow(a: Transaction, b: Transaction, ref: int)
    requires a.ticker == b.ticker
    ensures Summarize([a, b], ref) == [Summary(a.ticker, a.alphaPicked, a.quantRating, a.assetClass, a.sector,
      WeightedDate([a, b], ref), Sum([a, b], Cost), Sum([a, b], Quantity), AveragePrice([a, b]))]
  {
    TwoPurchasesOneRow(a, b, ref);
    assert [a, b][0] == a;
  }

  /**
   * Ten shares at 100 on day 0 and ten at 120 on day 30: 20 shares costing 2200
   * at 110 each. The purchase date is weighted by cost, not by quantity:
   * 36000 / 2200 = 16.36 days, which rounds to day 16.
   */
  lemma TwoPurchasesExample(a: Transaction, b: Transaction)
    requires a.ticker == b.ticker
    requires a.acquired == 0 && a.purchasePrice == 100.0 && a.quantity == 10.0
    requires b.acquired == 30 && b.purchasePrice == 120.0 && b.quantity == 10.0
    ensures var r := Summarize([a, b], 0);
      |r| == 1 && r[0].totalQuantity == 20.0 && r[0].totalCost == 2200.0
      && r[0].avgPurchasePrice == Some(110.0) && r[0].weightedAvgPurchaseDate == Some(16)
  {
    TwoPurchasesRow(a, b, 0);
    ExampleAggregates(a, b);
  }

  lemma ExampleAggregates(a: Transaction, b: Transaction)
    requires a.acquired == 0 && a.purchasePrice == 100.0 && a.quantity == 10.0
    requires b.acquired == 30 && b.purchasePrice == 120.0 && b.quantity == 10.0
    ensures Sum([a, b], Quantity) == 20.0 && Sum([a, b], Cost) == 2200.0
    ensures AveragePrice([a, b]) == Some(110.0) && WeightedDate([a, b], 0) == Some(16)
  {
    TwoPurchaseSums(a, b);
    TwoPurchaseWeightedDays(a, b, 0);
    assert Cost(a) == 1000.0 && Cost(b) == 1200.0;
    assert DaysSinceRef(a, 0) == 0 && DaysSinceRef(b, 0) == 30;
    assert WeightedDaysSum([a, b], Cost, 0) == 36000.0;
    assert (0 as real + 36000.0 / 2200.0).Floor == 16;
    assert RoundHalfEven(0 as real + 36000.0 / 2200.0) == 16;
    assert RoundTo(2200.0 / 20.0, 3) == 110.0 by {
      assert 2200.0 / 20.0 * 1000.0 == 110000.0;
      RoundHalfEvenOfInteger(110000);
    }
  }

  /**
   * A half-day tie is settled on the day count from the epoch, not on the
   * offset from the reference date: equal-cost purchases on days 1 and 2,
   * with the reference date on day 1, average to day 1.5, which goes to the
   * even day 2 (rounding the offset 0.5 would give day 1).
   */
  lemma HalfDayTieGoesToEvenEpochDay(a: Transaction, b: Transaction)
    requires a.ticker == b.ticker
    requires a.acquired == 1 && a.purchasePrice == 100.0 && a.quantity == 1.0
    requires b.acquired == 2 && b.purchasePrice == 100.0 && b.quantity == 1.0
    ensures Summarize([a, b], 1)[0].weightedAvgPurchaseDate == Some(2)
  {
    TwoPurchasesRow(a, b, 1);
    TieWeightedDate(a, b);
  }

  lemma TieWeightedDate(a: Transaction, b: Transaction)
    requires a.acquired == 1 && a.purchasePrice == 100.0 && a.quantity == 1.0
    requires b.acquired == 2 && b.purchasePrice == 100.0 && b.quantity == 1.0
    ensures WeightedDate([a, b], 1) == Some(2)
  {
    TwoPurchaseSums(a, b);
    TwoPurchaseWeightedDays(a, b, 1);
    assert Cost(a) == 100.0 && Cost(b) == 100.0;
    assert DaysSinceRef(a, 1) == 0 && DaysSinceRef(b, 1) == 1;
    assert WeightedDaysSum([a, b], Cost, 1) == 100.0;
    assert (1 as real + 100.0 / 200.0).Floor == 1;
    assert RoundHalfEven(1 as real + 100.0 / 200.0) == 2;
  }
}
