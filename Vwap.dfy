/**
 * The VWAP calculator (`calculate_vwap`): over the last `days` daily bars,
 * Entry = sum(low x volume) / sum(volume) and Exit = sum(high x volume) / sum(volume),
 * taken from the running (cumulative) sums at the final bar and rounded to
 * two decimals.
 */
module VwapCalculator {
  import opened Numeric

  /** One daily bar of the price history (the Open/High/Low/Close/Volume columns). */
  datatype Bar = Bar(open: real, high: real, low: real, close: real, volume: real)

  /** A fetched price history, oldest bar first; `hasVolume` says whether a Volume column is present. */
  datatype History = History(bars: seq<Bar>, hasVolume: bool)

  /**
   * What `calculate_vwap` returns: None when there is no Volume column
   * (`MissingVolume`), an empty frame when the window holds no bar
   * (`EmptyWindow`), otherwise the last row's Entry and Exit.
   */
  datatype VwapResult = MissingVolume | EmptyWindow | Point(entry: Ext, exit: Ext)

  /** Python's slice `bars[-days:]`: the last `days` bars, all of them when `days` is 0 or too large. */
  function Window(bars: seq<Bar>, days: int): (w: seq<Bar>)
    ensures |w| <= |bars| && w == bars[|bars| - |w|..]
    ensures days > 0 ==> |w| == (if days < |bars| then days else |bars|)
    ensures days == 0 ==> w == bars
    ensures days < 0 ==> |w| == (if |bars| + days > 0 then |bars| + days else 0)
  {
    var k := -days;
    var start :=
      if k >= 0 then (if k <= |bars| then k else |bars|)
      else (if |bars| + k >= 0 then |bars| + k else 0);
    bars[start..]
  }

  function LowVolume(b: Bar): real { b.low * b.volume }
  function HighVolume(b: Bar): real { b.high * b.volume }
  function Volume(b: Bar): real { b.volume }

  /** The final value of the cumulative sum of `f` over the bars. */
  function SumBars(w: seq<Bar>, f: Bar -> real): real {
    if |w| == 0 then 0.0 else SumBars(w[..|w| - 1], f) + f(w[|w| - 1])
  }

  /** The specification of `calculate_vwap(df, days)`. */
  function Vwap(h: History, days: int): (r: VwapResult)
    ensures r.MissingVolume? <==> !h.hasVolume
    ensures r.EmptyWindow? <==> h.hasVolume && (|h.bars| == 0 || days <= -|h.bars|)
  {
    if !h.hasVolume then MissingVolume
    else
      var w := Window(h.bars, days);
      if |w| == 0 then EmptyWindow
      else
        var volume := SumBars(w, Volume);
        Point(RoundExt(Div(SumBars(w, LowVolume), volume), 2), RoundExt(Div(SumBars(w, HighVolume), volume), 2))
  }

  /** `calculate_vwap`: running sums of low x volume, high x volume and volume over the window. */
  method CalculateVwap(h: History, days: int) returns (r: VwapResult)
    ensures r == Vwap(h, days)
  {
    if !h.hasVolume {
      return MissingVolume;
    }
    var w := Window(h.bars, days);
    var cumulativeLow, cumulativeHigh, cumulativeVolume := 0.0, 0.0, 0.0;
    var i := 0;
    while i < |w|
      invariant 0 <= i <= |w|
      invariant cumulativeLow == SumBars(w[..i], LowVolume)
      invariant cumulativeHigh == SumBars(w[..i], HighVolume)
      invariant cumulativeVolume == SumBars(w[..i], Volume)
    {
      SumBarsStep(w, i, LowVolume);
      SumBarsStep(w, i, HighVolume);
      SumBarsStep(w, i, Volume);
      cumulativeLow := cumulativeLow + w[i].low * w[i].volume;
      cumulativeHigh := cumulativeHigh + w[i].high * w[i].volume;
      cumulativeVolume := cumulativeVolume + w[i].volume;
      i := i + 1;
    }
    assert w[..|w|] == w;
    if |w| == 0 {
      return EmptyWindow;
    }
    var entry := RoundExt(Div(cumulativeLow, cumulativeVolume), 2);
    var exit := RoundExt(Div(cumulativeHigh, cumulativeVolume), 2);
    r := Point(entry, exit);
  }

  // ---------------------------------------------------------------------------
  // Properties

  lemma SumBarsStep(w: seq<Bar>, i: int, f: Bar -> real)
    requires 0 <= i < |w|
    ensures SumBars(w[..i + 1], f) == SumBars(w[..i], f) + f(w[i])
  {
    assert w[..i + 1][..i] == w[..i];
  }

  lemma {:induction false} SumBarsMonotone(w: seq<Bar>, f: Bar -> real, g: Bar -> real)
    requires forall b :: b in w ==> f(b) <= g(b)
    ensures SumBars(w, f) <= SumBars(w, g)
  {
    if |w| > 0 {
      var n := |w| - 1;
      assert w[n] in w;
      assert forall b :: b in w[..n] ==> b in w;
      SumBarsMonotone(w[..n], f, g);
    }
  }

  lemma LowVolumeAtMostHighVolume(b: Bar)
    requires b.low <= b.high && b.volume >= 0.0
    ensures LowVolume(b) <= HighVolume(b)
  {
    assert HighVolume(b) - LowVolume(b) == (b.high - b.low) * b.volume;
  }

  /**
   * Entry never exceeds Exit when every bar of the window has low <= high,
   * no bar has a negative volume and some volume was traded.
   */
  lemma EntryAtMostExit(h: History, days: int)
    requires h.hasVolume && |Window(h.bars, days)| > 0
    requires forall b :: b in Window(h.bars, days) ==> b.low <= b.high && b.volume >= 0.0
    requires SumBars(Window(h.bars, days), Volume) > 0.0
    ensures Vwap(h, days).Point?
    ensures Vwap(h, days).entry.Fin? && Vwap(h, days).exit.Fin?
    ensures Vwap(h, days).entry.v <= Vwap(h, days).exit.v
  {
    var w := Window(h.bars, days);
    forall b | b in w ensures LowVolume(b) <= HighVolume(b) {
      LowVolumeAtMostHighVolume(b);
    }
    SumBarsMonotone(w, LowVolume, HighVolume);
    var volume := SumBars(w, Volume);
    DivideMonotone(SumBars(w, LowVolume), SumBars(w, HighVolume), volume);
    RoundToMonotone(SumBars(w, LowVolume) / volume, SumBars(w, HighVolume) / volume, 2);
  }

  /** A window in which nothing traded has no VWAP: Entry and Exit are both NaN. */
  lemma {:induction false} SilentWindowHasNoPrice(h: History, days: int)
    requires h.hasVolume && |Window(h.bars, days)| > 0
    requires forall b :: b in Window(h.bars, days) ==> b.volume == 0.0
    ensures Vwap(h, days) == Point(NaN, NaN)
  {
    var w := Window(h.bars, days);
    SumOfSilentBars(w);
  }

  lemma {:induction false} SumOfSilentBars(w: seq<Bar>)
    requires forall b :: b in w ==> b.volume == 0.0
    ensures SumBars(w, Volume) == 0.0 && SumBars(w, LowVolume) == 0.0 && SumBars(w, HighVolume) == 0.0
  {
    if |w| > 0 {
      var n := |w| - 1;
      assert w[n] in w;
      assert forall b :: b in w[..n] ==> b in w;
      SumOfSilentBars(w[..n]);
    }
  }

  /**
   * Without the non-negative volume assumption Entry can exceed Exit: a bar
   * (low 0, high 10, volume -1) followed by a bar (low 0, high 0, volume 2)
   * gives Entry 0 and Exit -10.
   */
  lemma NegativeVolumeCanInvertEntryAndExit()
    ensures var h := History([Bar(0.0, 10.0, 0.0, 0.0, -1.0), Bar(0.0, 0.0, 0.0, 0.0, 2.0)], true);
      Vwap(h, 126) == Point(Fin(0.0), Fin(-10.0))
  {
    var w := [Bar(0.0, 10.0, 0.0, 0.0, -1.0), Bar(0.0, 0.0, 0.0, 0.0, 2.0)];
    assert Window(w, 126) == w;
    NegativeVolumeSums();
    assert Div(0.0, 1.0) == Fin(0.0);
    assert Div(-10.0, 1.0) == Fin(-10.0);
    RoundToInteger(0, 2);
    RoundToInteger(-10, 2);
    assert RoundExt(Fin(0.0), 2) == Fin(0.0);
    assert RoundExt(Fin(-10.0), 2) == Fin(-10.0);
  }

  lemma NegativeVolumeSums()
    ensures var w := [Bar(0.0, 10.0, 0.0, 0.0, -1.0), Bar(0.0, 0.0, 0.0, 0.0, 2.0)];
      SumBars(w, Volume) == 1.0 && SumBars(w, LowVolume) == 0.0 && SumBars(w, HighVolume) == -10.0
  {
    var b1, b2 := Bar(0.0, 10.0, 0.0, 0.0, -1.0), Bar(0.0, 0.0, 0.0, 0.0, 2.0);
    var w := [b1, b2];
    assert w[..1] == [b1] && [b1][..0] == [];
    assert SumBars([b1], Volume) == -1.0;
    assert SumBars([b1], LowVolume) == 0.0;
    assert SumBars([b1], HighVolume) == -10.0;
  }
}
