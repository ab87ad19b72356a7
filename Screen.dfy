/**
 * The per-ticker rules of `build_analysis_table`: the ETF bypass, the Graham
 * buy threshold and its fallback, the volume filter, the Graham screen and the
 * Buy / Sell / Hold decision.
 */
module Screen {
  import opened Wrappers
  import opened Numeric

  /**
   * The fundamentals of a stock as the fundamentals fetcher reports them.
   * A missing P/E, P/B or debt-to-equity ratio arrives as +infinity, a
   * missing dividend yield as 0; EPS and book value are derived from the
   * price and are 0 when the ratio they come from is 0 or infinite.
   */
  datatype Fundamentals = Fundamentals(
    peRatio: Ext, pbRatio: Ext, dividendYield: Ext, debtToEquity: Ext, eps: Ext, bookValue: Ext)

  /** The symbols treated as exchange-traded funds: no fundamentals, no Graham rules. */
  const EtfList: seq<string> := [
    "FBTC", "ITA", "SCHF", "SCHE", "SCHX", "AOA", "AOK", "AOM",
    "AOR", "BLV", "SCHA", "SCHD", "SCHH", "SCHM", "SCHP", "SCHR", "SCHZ"]

  predicate IsEtf(symbol: string) {
    symbol in EtfList
  }

  /** The `rating` column: a decision, or "Error" when the ticker could not be analysed. */
  datatype Decision = Buy | Sell | Hold | Error

  /** Graham's valuation and balance-sheet screen for a stock (comparisons are IEEE: NaN fails every test). */
  function GrahamScreen(f: Fundamentals): (ok: bool)
    ensures ok ==> Lt(f.peRatio, Fin(100.0)) && Lt(f.pbRatio, Fin(10.0)) && Lt(f.debtToEquity, Fin(2.0))
    ensures f.peRatio.NaN? || f.pbRatio.NaN? || f.dividendYield.NaN? || f.debtToEquity.NaN? ==> !ok
  {
    ((Lt(f.peRatio, Fin(19.0)) && Lt(f.pbRatio, Fin(2.0))) ||
     (Lt(Mul(f.peRatio, f.pbRatio), Fin(38.0)) && Lt(f.peRatio, Fin(100.0)) && Lt(f.pbRatio, Fin(10.0))))
    && Le(Fin(0.0), f.dividendYield) && Lt(f.debtToEquity, Fin(2.0))
  }

  /** `graham_ok`: `None` stands for an ETF, whose fundamentals are never fetched and which always passes. */
  predicate GrahamOk(fund: Option<Fundamentals>) {
    fund.None? || GrahamScreen(fund.value)
  }

  /**
   * `graham_buy_threshold`: None for an ETF; for a stock with positive EPS and
   * book value the Graham number sqrt(38 x EPS x book value) times the
   * margin, rounded to cents; otherwise the VWAP buy threshold. `sqrt` is the
   * square root of the platform (infinity maps to infinity).
   */
  function GrahamBuyThreshold(fund: Option<Fundamentals>, buyThreshold: Ext, sqrt: real -> real, grahamMargin: real): (r: Option<Ext>)
    ensures r.None? <==> fund.None?
    ensures fund.Some? && !(Lt(Fin(0.0), fund.value.eps) && Lt(Fin(0.0), fund.value.bookValue)) ==> r == Some(buyThreshold)
    ensures fund.Some? && Lt(Fin(0.0), fund.value.eps) && Lt(Fin(0.0), fund.value.bookValue) && grahamMargin > 0.0 ==>
      r.value.PosInf? || r.value.Fin?
  {
    if fund.None? then None
    else
      var f := fund.value;
      if Lt(Fin(0.0), f.eps) && Lt(Fin(0.0), f.bookValue) then
        var product := Mul(Mul(Fin(38.0), f.eps), f.bookValue);
        var desired := if product.Fin? then Fin(sqrt(product.v)) else PosInf;
        Some(RoundExt(Mul(desired, Fin(grahamMargin)), 2))
      else Some(buyThreshold)
  }

  /** The last `n` entries of `s` (all of them when there are fewer). */
  function LastN(s: seq<real>, n: nat): (t: seq<real>)
    ensures |t| == (if n < |s| then n else |s|)
    ensures t == s[|s| - |t|..]
  {
    if n < |s| then s[|s| - n..] else s
  }

  function Total(s: seq<real>): real {
    if |s| == 0 then 0.0 else Total(s[..|s| - 1]) + s[|s| - 1]
  }

  /** The arithmetic mean of a non-empty series. */
  function Mean(s: seq<real>): real
    requires |s| > 0
  {
    Total(s) / |s| as real
  }

  /** `volume_ok`: today's volume is at least a fifth of the average volume of the last 21 sessions. */
  function VolumeOk(volumes: seq<real>): (ok: bool)
    requires |volumes| > 0
    ensures (forall i :: 0 <= i < |volumes| ==> volumes[i] == volumes[0]) ==> (ok <==> volumes[0] >= 0.0)
  {
    SteadyVolumeMean(volumes);
    volumes[|volumes| - 1] >= Mean(LastN(volumes, 21)) * 0.2
  }

  /** When every session traded the same volume, the mean of the last sessions is that volume. */
  lemma SteadyVolumeMean(volumes: seq<real>)
    requires |volumes| > 0
    ensures (forall i :: 0 <= i < |volumes| ==> volumes[i] == volumes[0]) ==> Mean(LastN(volumes, 21)) == volumes[0]
  {
    if forall i :: 0 <= i < |volumes| ==> volumes[i] == volumes[0] {
      var w := LastN(volumes, 21);
      TotalOfSteady(w, volumes[0]);
      assert Total(w) / |w| as real == volumes[0];
    }
  }

  lemma {:induction false} TotalOfSteady(s: seq<real>, c: real)
    requires forall i :: 0 <= i < |s| ==> s[i] == c
    ensures Total(s) == |s| as real * c
  {
    if |s| > 0 {
      TotalOfSteady(s[..|s| - 1], c);
    }
  }

  /** The decision: Buy takes precedence over Sell, and Sell does not consult the Graham screen. */
  function Decide(marketPrice: real, buyThreshold: Ext, grahamThreshold: Option<Ext>, exitPrice: Ext,
                  volumeOk: bool, grahamOk: bool): (d: Decision)
    ensures d == Buy || d == Sell || d == Hold
  {
    if Le(Fin(marketPrice), PyMin(buyThreshold, OrInfinity(grahamThreshold))) && volumeOk && grahamOk then Buy
    else if Le(exitPrice, Fin(marketPrice)) && volumeOk then Sell
    else Hold
  }

  // ---------------------------------------------------------------------------
  // Properties of the decision

  /**
   * With thresholds that are not NaN, a ticker is a Buy exactly when the price
   * is at or below the VWAP threshold and at or below the Graham threshold
   * (absent or zero meaning no limit), with enough volume and a passed screen.
   */
  lemma BuyIff(marketPrice: real, buyThreshold: Ext, grahamThreshold: Option<Ext>, exitPrice: Ext,
               volumeOk: bool, grahamOk: bool)
    requires !buyThreshold.NaN? && (grahamThreshold.Some? ==> !grahamThreshold.value.NaN?)
    ensures Decide(marketPrice, buyThreshold, grahamThreshold, exitPrice, volumeOk, grahamOk) == Buy <==>
      Le(Fin(marketPrice), buyThreshold) &&
      (grahamThreshold.None? || grahamThreshold.value == Fin(0.0) || Le(Fin(marketPrice), grahamThreshold.value)) &&
      volumeOk && grahamOk
  {
    LeMinIffLeBoth(Fin(marketPrice), buyThreshold, OrInfinity(grahamThreshold));
  }

  /** Whatever the thresholds (NaN included), a Buy is at or below the VWAP threshold and every finite nonzero Graham threshold. */
  lemma BuyAtOrBelowThresholds(marketPrice: real, buyThreshold: Ext, grahamThreshold: Option<Ext>, exitPrice: Ext,
                               volumeOk: bool, grahamOk: bool)
    requires Decide(marketPrice, buyThreshold, grahamThreshold, exitPrice, volumeOk, grahamOk) == Buy
    ensures Le(Fin(marketPrice), buyThreshold) && volumeOk && grahamOk
    ensures grahamThreshold.Some? && grahamThreshold.value.Fin? && grahamThreshold.value.v != 0.0 ==>
      marketPrice <= grahamThreshold.value.v
  {
    var m := PyMin(buyThreshold, OrInfinity(grahamThreshold));
    assert Le(Fin(marketPrice), m);
    if grahamThreshold.Some? && grahamThreshold.value.NaN? {
      assert m == buyThreshold;
    } else if !buyThreshold.NaN? {
      LeMinIffLeBoth(Fin(marketPrice), buyThreshold, OrInfinity(grahamThreshold));
    }
  }

  /** A Sell is exactly a non-Buy whose price reached the exit price on sufficient volume. */
  lemma SellIff(marketPrice: real, buyThreshold: Ext, grahamThreshold: Option<Ext>, exitPrice: Ext,
                volumeOk: bool, grahamOk: bool)
    ensures var d := Decide(marketPrice, buyThreshold, grahamThreshold, exitPrice, volumeOk, grahamOk);
      d == Sell <==> d != Buy && Le(exitPrice, Fin(marketPrice)) && volumeOk
  {
  }

  /** Without enough volume a ticker is always held. */
  lemma LowVolumeHolds(marketPrice: real, buyThreshold: Ext, grahamThreshold: Option<Ext>, exitPrice: Ext, grahamOk: bool)
    ensures Decide(marketPrice, buyThreshold, grahamThreshold, exitPrice, false, grahamOk) == Hold
  {
  }

  /** A stock that fails the Graham screen is still sold once its price reaches the exit price. */
  lemma SellIgnoresGrahamScreen(marketPrice: real, buyThreshold: Ext, grahamThreshold: Option<Ext>, exitPrice: Ext)
    requires Le(exitPrice, Fin(marketPrice))
    ensures Decide(marketPrice, buyThreshold, grahamThreshold, exitPrice, true, false) == Sell
  {
  }

  /** A Graham threshold of exactly zero is read as "no threshold". */
  lemma ZeroGrahamThresholdIgnored(marketPrice: real, buyThreshold: Ext, exitPrice: Ext, volumeOk: bool, grahamOk: bool)
    ensures Decide(marketPrice, buyThreshold, Some(Fin(0.0)), exitPrice, volumeOk, grahamOk) ==
            Decide(marketPrice, buyThreshold, None, exitPrice, volumeOk, grahamOk)
  {
  }

  /**
   * A NaN VWAP buy threshold (a window without volume) rules a Buy out, while
   * a NaN Graham threshold is ignored by `min` and leaves the VWAP threshold in charge.
   */
  lemma NaNThresholds(marketPrice: real, buyThreshold: Ext, grahamThreshold: Option<Ext>, exitPrice: Ext,
                      volumeOk: bool, grahamOk: bool)
    ensures Decide(marketPrice, NaN, grahamThreshold, exitPrice, volumeOk, grahamOk) != Buy
    ensures Decide(marketPrice, buyThreshold, Some(NaN), exitPrice, volumeOk, grahamOk) ==
            Decide(marketPrice, buyThreshold, None, exitPrice, volumeOk, grahamOk)
  {
  }

  // ---------------------------------------------------------------------------
  // Properties of the screen and the Graham threshold

  /** On finite ratios the screen is the plain arithmetic formula. */
  lemma GrahamScreenOnFiniteRatios(pe: real, pb: real, dy: real, de: real, eps: Ext, bv: Ext)
    ensures GrahamScreen(Fundamentals(Fin(pe), Fin(pb), Fin(dy), Fin(de), eps, bv)) <==>
      ((pe < 19.0 && pb < 2.0) || (pe * pb < 38.0 && pe < 100.0 && pb < 10.0)) && dy >= 0.0 && de < 2.0
  {
    assert Mul(Fin(pe), Fin(pb)) == Fin(pe * pb);
    assert Le(Fin(0.0), Fin(dy)) <==> dy >= 0.0;
  }

  /** A missing P/E, P/B or debt-to-equity ratio (reported as +infinity) fails the screen. */
  lemma MissingRatioFailsScreen(f: Fundamentals)
    requires f.peRatio.PosInf? || f.pbRatio.PosInf? || f.debtToEquity.PosInf?
    ensures !GrahamScreen(f)
  {
  }

  /** For non-negative ratios the first alternative is subsumed by the second: pe < 19 and pb < 2 give pe x pb < 38. */
  lemma ValueRuleSubsumed(pe: real, pb: real)
    requires 0.0 <= pe < 19.0 && 0.0 <= pb < 2.0
    ensures pe * pb < 38.0 && pe < 100.0 && pb < 10.0
  {
    if pe > 0.0 {
      ScaleMonotone(pb, 2.0, pe);
    }
    assert pe * 2.0 < 38.0;
  }

  /**
   * The Graham number is the price at which P/E x P/B equals 38: at a price
   * p > 0 with p x p <= 38 x EPS x BV, the ratios (p / EPS) and (p / BV)
   * multiply to at most 38.
   */
  lemma GrahamNumberBound(p: real, eps: real, bv: real)
    requires p > 0.0 && eps > 0.0 && bv > 0.0
    requires p * p <= 38.0 * eps * bv
    ensures (p / eps) * (p / bv) <= 38.0
  {
    var a, b := p / eps, p / bv;
    var e := eps * bv;
    assert a * eps == p && b * bv == p;
    assert (a * b) * e == (a * eps) * (b * bv);
    assert (a * eps) * (b * bv) == p * p;
    assert 38.0 * eps * bv == 38.0 * e;
    FactorBound(a * b, e, p * p);
  }

  /**
   * The unrounded stock threshold `sqrt(38 x EPS x BV) x graham_margin`, for a
   * square root that is exact at that argument and a margin in (0, 1], is a
   * positive price at which P/E x P/B is at most 38.
   */
  lemma GrahamDesiredPriceBound(eps: real, bv: real, sqrt: real -> real, grahamMargin: real)
    requires eps > 0.0 && bv > 0.0 && 0.0 < grahamMargin <= 1.0
    requires sqrt(38.0 * eps * bv) > 0.0 && sqrt(38.0 * eps * bv) * sqrt(38.0 * eps * bv) == 38.0 * eps * bv
    ensures var price := sqrt(38.0 * eps * bv) * grahamMargin;
      price > 0.0 && (price / eps) * (price / bv) <= 38.0
  {
    var root := sqrt(38.0 * eps * bv);
    var price := root * grahamMargin;
    ScaledSquareAtMost(root, grahamMargin, price, root * root);
    GrahamNumberBound(price, eps, bv);
  }

  /** Scaling a positive root by a margin in (0, 1] gives a positive value whose square is at most the root's. */
  lemma ScaledSquareAtMost(root: real, m: real, price: real, square: real)
    requires root > 0.0 && 0.0 < m <= 1.0 && price == root * m && square == root * root
    ensures price > 0.0 && price * price <= square
  {
    assert price * price == square * (m * m);
    assert m * m <= m;
    assert square > 0.0;
    assert square * (m * m) <= square * m <= square;
  }

  lemma FactorBound(x: real, e: real, product: real)
    requires e > 0.0 && x * e == product && product <= 38.0 * e
    ensures x <= 38.0
  {
    assert (x - 38.0) * e <= 0.0;
  }

  /** For an ETF there is no Graham threshold and the screen passes. */
  lemma EtfBypassesGraham(buyThreshold: Ext, sqrt: real -> real, grahamMargin: real)
    ensures GrahamBuyThreshold(None, buyThreshold, sqrt, grahamMargin) == None
    ensures GrahamOk(None)
  {
  }

  /**
   * For a stock with finite positive EPS and book value the threshold is the
   * Graham number times the margin, rounded to cents.
   */
  lemma GrahamThresholdOfProfitableStock(f: Fundamentals, buyThreshold: Ext, sqrt: real -> real, grahamMargin: real)
    requires f.eps.Fin? && f.bookValue.Fin? && f.eps.v > 0.0 && f.bookValue.v > 0.0
    ensures GrahamBuyThreshold(Some(f), buyThreshold, sqrt, grahamMargin) ==
      Some(Fin(RoundTo(sqrt(38.0 * f.eps.v * f.bookValue.v) * grahamMargin, 2)))
  {
    assert Lt(Fin(0.0), f.eps) && Lt(Fin(0.0), f.bookValue);
    var product := 38.0 * f.eps.v * f.bookValue.v;
    assert Mul(Mul(Fin(38.0), f.eps), f.bookValue) == Fin(product);
    assert Mul(Fin(sqrt(product)), Fin(grahamMargin)) == Fin(sqrt(product) * grahamMargin);
    var x := sqrt(product) * grahamMargin;
    assert GrahamBuyThreshold(Some(f), buyThreshold, sqrt, grahamMargin) == Some(RoundExt(Fin(x), 2));
    assert RoundExt(Fin(x), 2) == Fin(RoundTo(x, 2));
    assert x == sqrt(38.0 * f.eps.v * f.bookValue.v) * grahamMargin;
  }

  // ---------------------------------------------------------------------------
  // Properties of the volume filter

  /** `volume_ok` without the division: 5 x n x today >= the sum of the last n <= 21 volumes. */
  lemma VolumeOkIff(volumes: seq<real>)
    requires |volumes| > 0
    ensures var w := LastN(volumes, 21);
      VolumeOk(volumes) <==> 5.0 * |w| as real * volumes[|volumes| - 1] >= Total(w)
  {
    var w := LastN(volumes, 21);
    var n := |w| as real;
    var today := volumes[|volumes| - 1];
    ScaledComparison(today, Total(w), n);
  }

  lemma ScaledComparison(today: real, total: real, n: real)
    requires n > 0.0
    ensures today >= total / n * 0.2 <==> 5.0 * n * today >= total
  {
    assert 5.0 * n * (total / n * 0.2) == total;
    if today >= total / n * 0.2 {
      ScaleMonotone(total / n * 0.2, today, 5.0 * n);
    }
    if 5.0 * n * today >= total {
      DivideMonotone(total, 5.0 * n * today, 5.0 * n);
      assert 5.0 * n * today / (5.0 * n) == today;
    }
  }

  /** A session with no volume after sessions that traded fails the filter. */
  lemma SilentSessionFailsVolumeFilter(volumes: seq<real>)
    requires |volumes| > 0 && volumes[|volumes| - 1] == 0.0
    requires forall i :: 0 <= i < |volumes| ==> volumes[i] >= 0.0
    requires Total(LastN(volumes, 21)) > 0.0
    ensures !VolumeOk(volumes)
  {
    VolumeOkIff(volumes);
  }
}
