/**
 * `build_analysis_table`: one analysis row per distinct ticker of the
 * summary, in first-seen order. The price history and the fundamentals
 * fetchers are parameters (None = the fetch failed); so is the square root.
 */
module AnalysisTable {
  import opened Wrappers
  import opened Seqs
  import opened Numeric
  import opened VwapCalculator
  import opened Screen

  /** The tunable margins and window (defaults 0.9, 126 and 0.95). */
  datatype Params = Params(marginOfSafety: real, vwapDays: int, grahamMargin: real)

  const DefaultParams := Params(0.9, 126, 0.95)

  /**
   * A row of the analysis table. `ErrorRow` is the all-None row whose
   * rating is "Error"; the optional fields of `Row` are None for an ETF.
   */
  datatype AnalysisRow =
    | ErrorRow(symbol: string)
    | Row(symbol: string, marketPrice: real, buyThreshold: Ext, grahamThreshold: Option<Ext>, exitPrice: Ext,
          peRatio: Option<Ext>, pbRatio: Option<Ext>, dividendYield: Option<Ext>, decision: Decision)

  /** The `rating` column. */
  function Rating(row: AnalysisRow): Decision {
    if row.ErrorRow? then Error else row.decision
  }

  /**
   * The ways the table build stops with an exception: an empty price
   * history (its last close does not exist), a VWAP window with no bar (its
   * first row does not exist), and a table variable that was never assigned.
   */
  datatype Fault = EmptyHistory(symbol: string) | EmptyVwapWindow(symbol: string) | NoTableAssigned

  /** What one ticker contributes: a row, or an exception that ends the build. */
  datatype Outcome = Crash(fault: Fault) | Emit(row: AnalysisRow)

  type HistoryFetcher = string -> Option<History>
  type FundamentalsFetcher = (string, real) -> Option<Fundamentals>

  function Volumes(bars: seq<Bar>): (vs: seq<real>)
    ensures |vs| == |bars| && forall i :: 0 <= i < |bars| ==> vs[i] == bars[i].volume
  {
    seq(|bars|, i requires 0 <= i < |bars| => bars[i].volume)
  }

  /** The body of the loop for one ticker. */
  function AnalyzeTicker(symbol: string, getHistory: HistoryFetcher, getFundamentals: FundamentalsFetcher,
                         sqrt: real -> real, p: Params): (o: Outcome)
    ensures o.Emit? ==> o.row.symbol == symbol
  {
    var raw := getHistory(symbol);
    if raw.None? then Emit(ErrorRow(symbol))
    else
      var h := raw.value;
      if |h.bars| == 0 then Crash(EmptyHistory(symbol))
      else
        var close := h.bars[|h.bars| - 1].close;
        var etf := IsEtf(symbol);
        var fund := if etf then None else getFundamentals(symbol, close);
        if !etf && fund.None? then Emit(ErrorRow(symbol))
        else
          var vwap := Vwap(h, p.vwapDays);
          if vwap.MissingVolume? then Emit(ErrorRow(symbol))
          else if vwap.EmptyWindow? then Crash(EmptyVwapWindow(symbol))
          else
            var marketPrice := RoundTo(close, 2);
            var entry := RoundExt(vwap.entry, 2);
            var exit := RoundExt(vwap.exit, 2);
            var buy := RoundExt(Mul(entry, Fin(p.marginOfSafety)), 2);
            var graham := GrahamBuyThreshold(fund, buy, sqrt, p.grahamMargin);
            var decision := Decide(marketPrice, buy, graham, exit, VolumeOk(Volumes(h.bars)), GrahamOk(fund));
            Emit(Row(symbol, marketPrice, buy, graham, exit,
                     if etf then None else Some(fund.value.peRatio),
                     if etf then None else Some(fund.value.pbRatio),
                     if etf then None else Some(fund.value.dividendYield),
                     decision))
  }

  /** The loop body with the fetchers, the square root and the parameters fixed. */
  function Analyzer(getHistory: HistoryFetcher, getFundamentals: FundamentalsFetcher, sqrt: real -> real,
                    p: Params): string -> Outcome
  {
    symbol => AnalyzeTicker(symbol, getHistory, getFundamentals, sqrt, p)
  }

  /**
   * The rows that `analyze` gives the symbols, in order, or the first
   * exception raised: the loop over the symbols for any loop body.
   */
  function Collect(symbols: seq<string>, analyze: string -> Outcome): (r: Result<seq<AnalysisRow>, Fault>)
    ensures r.Success? ==> |r.value| == |symbols|
  {
    if |symbols| == 0 then Success([])
    else
      match Collect(symbols[..|symbols| - 1], analyze)
      case Failure(f) => Failure(f)
      case Success(rows) =>
        match analyze(symbols[|symbols| - 1])
        case Crash(f) => Failure(f)
        case Emit(row) => Success(rows + [row])
  }

  /** The intended table over a list of symbols: every symbol's row in order, or the first exception raised. */
  function Table(symbols: seq<string>, getHistory: HistoryFetcher, getFundamentals: FundamentalsFetcher,
                 sqrt: real -> real, p: Params): (r: Result<seq<AnalysisRow>, Fault>)
    ensures r.Success? ==> |r.value| == |symbols|
  {
    Collect(symbols, Analyzer(getHistory, getFundamentals, sqrt, p))
  }

  /**
   * `build_analysis_table` with the table returned after the loop: the rows
   * of the distinct tickers in first-seen order, or the first exception.
   */
  method BuildAnalysisTable(tickers: seq<string>, getHistory: HistoryFetcher, getFundamentals: FundamentalsFetcher,
                            sqrt: real -> real, p: Params) returns (r: Result<seq<AnalysisRow>, Fault>)
    ensures r == Table(Unique(tickers), getHistory, getFundamentals, sqrt, p)
  {
    var symbols := Unique(tickers);
    ghost var analyze := Analyzer(getHistory, getFundamentals, sqrt, p);
    var portfolio: seq<AnalysisRow> := [];
    var i := 0;
    while i < |symbols|
      invariant 0 <= i <= |symbols|
      invariant Collect(symbols[..i], analyze) == Success(portfolio)
    {
      assert symbols[..i + 1][..i] == symbols[..i];
      var o := AnalyzeTicker(symbols[i], getHistory, getFundamentals, sqrt, p);
      assert analyze(symbols[..i + 1][i]) == o;
      if o.Crash? {
        CollectFailureIsFinal(symbols, i + 1, analyze);
        return Failure(o.fault);
      }
      portfolio := portfolio + [o.row];
      i := i + 1;
    }
    assert symbols[..|symbols|] == symbols;
    r := Success(portfolio);
  }

  // ---------------------------------------------------------------------------
  // Properties of the loop, for any loop body

  lemma {:induction false} CollectFailureIsFinal(symbols: seq<string>, k: nat, analyze: string -> Outcome)
    requires k <= |symbols|
    requires Collect(symbols[..k], analyze).Failure?
    ensures Collect(symbols, analyze) == Collect(symbols[..k], analyze)
  {
    if k < |symbols| {
      var n := |symbols| - 1;
      assert symbols[..n][..k] == symbols[..k];
      CollectFailureIsFinal(symbols[..n], k, analyze);
    } else {
      assert symbols[..k] == symbols;
    }
  }

  lemma {:induction false} CollectOneRowEach(symbols: seq<string>, analyze: string -> Outcome)
    requires Collect(symbols, analyze).Success?
    ensures forall i :: 0 <= i < |symbols| ==> analyze(symbols[i]) == Emit(Collect(symbols, analyze).value[i])
  {
    if |symbols| > 0 {
      var n := |symbols| - 1;
      var prefix := symbols[..n];
      CollectOneRowEach(prefix, analyze);
      var rows := Collect(symbols, analyze).value;
      assert rows == Collect(prefix, analyze).value + [rows[n]];
      assert forall i :: 0 <= i < n ==> prefix[i] == symbols[i] && rows[i] == Collect(prefix, analyze).value[i];
    }
  }

  lemma {:induction false} CollectFirstFault(symbols: seq<string>, analyze: string -> Outcome)
    ensures Collect(symbols, analyze).Success? <==> forall i :: 0 <= i < |symbols| ==> analyze(symbols[i]).Emit?
    ensures Collect(symbols, analyze).Failure? ==>
      exists k :: 0 <= k < |symbols| && analyze(symbols[k]) == Crash(Collect(symbols, analyze).error) &&
        forall i :: 0 <= i < k ==> analyze(symbols[i]).Emit?
  {
    if |symbols| > 0 {
      var n := |symbols| - 1;
      var prefix := symbols[..n];
      CollectFirstFault(prefix, analyze);
      assert forall i :: 0 <= i < n ==> prefix[i] == symbols[i];
    }
  }

  // ---------------------------------------------------------------------------
  // Properties of the table

  /** Once a symbol raises, the symbols after it change nothing. */
  lemma FailureIsFinal(symbols: seq<string>, k: nat, getHistory: HistoryFetcher,
                       getFundamentals: FundamentalsFetcher, sqrt: real -> real, p: Params)
    requires k <= |symbols|
    requires Table(symbols[..k], getHistory, getFundamentals, sqrt, p).Failure?
    ensures Table(symbols, getHistory, getFundamentals, sqrt, p) == Table(symbols[..k], getHistory, getFundamentals, sqrt, p)
  {
    CollectFailureIsFinal(symbols, k, Analyzer(getHistory, getFundamentals, sqrt, p));
  }

  /**
   * Exactly one row per symbol, in order, each the symbol's own analysis:
   * a failed fetch for one ticker gives that ticker an Error row and touches no other row.
   */
  lemma OneRowPerSymbol(symbols: seq<string>, getHistory: HistoryFetcher, getFundamentals: FundamentalsFetcher,
                        sqrt: real -> real, p: Params)
    requires Table(symbols, getHistory, getFundamentals, sqrt, p).Success?
    ensures var rows := Table(symbols, getHistory, getFundamentals, sqrt, p).value;
      |rows| == |symbols| &&
      forall i :: 0 <= i < |symbols| ==>
        AnalyzeTicker(symbols[i], getHistory, getFundamentals, sqrt, p) == Emit(rows[i]) && rows[i].symbol == symbols[i]
  {
    CollectOneRowEach(symbols, Analyzer(getHistory, getFundamentals, sqrt, p));
  }

  /** The build succeeds exactly when no symbol raises, and otherwise reports the first symbol that does. */
  lemma FirstFaultWins(symbols: seq<string>, getHistory: HistoryFetcher, getFundamentals: FundamentalsFetcher,
                       sqrt: real -> real, p: Params)
    ensures Table(symbols, getHistory, getFundamentals, sqrt, p).Success? <==>
      forall i :: 0 <= i < |symbols| ==> AnalyzeTicker(symbols[i], getHistory, getFundamentals, sqrt, p).Emit?
    ensures Table(symbols, getHistory, getFundamentals, sqrt, p).Failure? ==>
      exists k :: 0 <= k < |symbols| &&
        AnalyzeTicker(symbols[k], getHistory, getFundamentals, sqrt, p) ==
          Crash(Table(symbols, getHistory, getFundamentals, sqrt, p).error) &&
        forall i :: 0 <= i < k ==> AnalyzeTicker(symbols[i], getHistory, getFundamentals, sqrt, p).Emit?
  {
    CollectFirstFault(symbols, Analyzer(getHistory, getFundamentals, sqrt, p));
  }

  /** The analysis rows follow the order in which the tickers first appear in the summary. */
  lemma RowsInFirstSeenOrder(tickers: seq<string>, getHistory: HistoryFetcher, getFundamentals: FundamentalsFetcher,
                             sqrt: real -> real, p: Params, i: int, j: int)
    requires Table(Unique(tickers), getHistory, getFundamentals, sqrt, p).Success?
    requires 0 <= i < j < |Unique(tickers)|
    ensures var rows := Table(Unique(tickers), getHistory, getFundamentals, sqrt, p).value;
      rows[i].symbol in tickers && rows[j].symbol in tickers && rows[i].symbol != rows[j].symbol &&
      FirstIndex(tickers, rows[i].symbol) < FirstIndex(tickers, rows[j].symbol)
  {
    OneRowPerSymbol(Unique(tickers), getHistory, getFundamentals, sqrt, p);
    UniqueKeepsFirstSeenOrder(tickers, i, j);
  }

  /**
   * The three reasons a ticker gets the Error row: its price history cannot be
   * fetched; it is a stock whose fundamentals cannot be fetched; or its
   * history has no Volume column, so no VWAP can be computed.
   */
  predicate ErrorCause(symbol: string, getHistory: HistoryFetcher, getFundamentals: FundamentalsFetcher, p: Params) {
    var raw := getHistory(symbol);
    raw.None? ||
      (|raw.value.bars| > 0 &&
       ((!IsEtf(symbol) && getFundamentals(symbol, raw.value.bars[|raw.value.bars| - 1].close).None?) ||
        Vwap(raw.value, p.vwapDays).MissingVolume?))
  }

  /** A ticker is reported as the Error row exactly when one of the three reasons applies. */
  lemma FailedFetchGivesErrorRow(symbol: string, getHistory: HistoryFetcher, getFundamentals: FundamentalsFetcher,
                                 sqrt: real -> real, p: Params)
    ensures AnalyzeTicker(symbol, getHistory, getFundamentals, sqrt, p) == Emit(ErrorRow(symbol)) <==>
      ErrorCause(symbol, getHistory, getFundamentals, p)
    ensures Rating(ErrorRow(symbol)) == Error
  {
  }

  /** An ETF's row carries no Graham threshold and no ratios, and the Graham screen does not hold it back. */
  lemma EtfRow(symbol: string, getHistory: HistoryFetcher, getFundamentals: FundamentalsFetcher,
               sqrt: real -> real, p: Params)
    requires IsEtf(symbol)
    requires AnalyzeTicker(symbol, getHistory, getFundamentals, sqrt, p).Emit?
    requires AnalyzeTicker(symbol, getHistory, getFundamentals, sqrt, p).row.Row?
    ensures var row := AnalyzeTicker(symbol, getHistory, getFundamentals, sqrt, p).row;
      row.grahamThreshold.None? && row.peRatio.None? && row.pbRatio.None? && row.dividendYield.None?
  {
  }

  /**
   * The decision column agrees with the row's own columns: a Buy row is
   * priced at or below its entry threshold and its finite nonzero Graham
   * threshold, and a Sell row at or above its exit price.
   */
  lemma DecisionMatchesRow(symbol: string, getHistory: HistoryFetcher, getFundamentals: FundamentalsFetcher,
                           sqrt: real -> real, p: Params)
    requires AnalyzeTicker(symbol, getHistory, getFundamentals, sqrt, p).Emit?
    requires AnalyzeTicker(symbol, getHistory, getFundamentals, sqrt, p).row.Row?
    ensures var row := AnalyzeTicker(symbol, getHistory, getFundamentals, sqrt, p).row;
      (row.decision == Buy ==>
         && Le(Fin(row.marketPrice), row.buyThreshold)
         && (row.grahamThreshold.Some? && row.grahamThreshold.value.Fin? && row.grahamThreshold.value.v != 0.0 ==>
               row.marketPrice <= row.grahamThreshold.value.v)) &&
      (row.decision == Sell ==> Le(row.exitPrice, Fin(row.marketPrice)))
  {
    var row := AnalyzeTicker(symbol, getHistory, getFundamentals, sqrt, p).row;
    var h := getHistory(symbol).value;
    var fund := if IsEtf(symbol) then None else getFundamentals(symbol, h.bars[|h.bars| - 1].close);
    assert row.decision == Decide(row.marketPrice, row.buyThreshold, row.grahamThreshold, row.exitPrice,
                                  VolumeOk(Volumes(h.bars)), GrahamOk(fund));
    if row.decision == Buy {
      BuyAtOrBelowThresholds(row.marketPrice, row.buyThreshold, row.grahamThreshold, row.exitPrice,
                             VolumeOk(Volumes(h.bars)), GrahamOk(fund));
    }
  }

  // ---------------------------------------------------------------------------
  // The table as the source builds it

  /**
   * The loop state of the source: the accumulated rows, and the table
   * variable, which is reassigned only at the end of an iteration that did
   * not `continue` (so only after a non-Error row).
   */
  datatype LoopState = LoopState(portfolio: seq<AnalysisRow>, table: Option<seq<AnalysisRow>>)

  function AsWrittenLoop(symbols: seq<string>, analyze: string -> Outcome): Result<LoopState, Fault> {
    if |symbols| == 0 then Success(LoopState([], None))
    else
      match AsWrittenLoop(symbols[..|symbols| - 1], analyze)
      case Failure(f) => Failure(f)
      case Success(st) =>
        match analyze(symbols[|symbols| - 1])
        case Crash(f) => Failure(f)
        case Emit(row) =>
          var portfolio := st.portfolio + [row];
          Success(LoopState(portfolio, if row.ErrorRow? then st.table else Some(portfolio)))
  }

  /** What the source returns: the last assigned table, or an exception when the variable was never assigned. */
  function AsWritten(symbols: seq<string>, getHistory: HistoryFetcher, getFundamentals: FundamentalsFetcher,
                     sqrt: real -> real, p: Params): (r: Result<seq<AnalysisRow>, Fault>)
    ensures |symbols| == 0 ==> r == Failure(NoTableAssigned)
    ensures r.Success? ==> |r.value| > 0 && r.value[|r.value| - 1].Row?
  {
    AsWrittenLoopCuts(symbols, Analyzer(getHistory, getFundamentals, sqrt, p));
    match AsWrittenLoop(symbols, Analyzer(getHistory, getFundamentals, sqrt, p))
    case Failure(f) => Failure(f)
    case Success(st) => if st.table.None? then Failure(NoTableAssigned) else Success(st.table.value)
  }

  lemma {:induction false} AsWrittenLoopCuts(symbols: seq<string>, analyze: string -> Outcome)
    ensures var t := Collect(symbols, analyze);
      var s := AsWrittenLoop(symbols, analyze);
      (t.Failure? <==> s.Failure?) &&
      (t.Failure? ==> s.error == t.error) &&
      (t.Success? ==> s.value.portfolio == t.value && CutAfterLastRow(t.value, s.value.table))
  {
    if |symbols| > 0 {
      var n := |symbols| - 1;
      AsWrittenLoopCuts(symbols[..n], analyze);
      var pt := Collect(symbols[..n], analyze);
      var o := analyze(symbols[n]);
      if pt.Success? && o.Emit? {
        var sp := AsWrittenLoop(symbols[..n], analyze).value;
        CutAfterLastRowStep(pt.value, sp.table, o.row);
      }
    }
  }

  /**
   * The source's table is the intended table cut just after its last
   * non-Error row: trailing Error rows are lost, and when every row is an
   * Error row (or there is no ticker) the build raises instead.
   */
  lemma AsWrittenDropsTrailingErrors(symbols: seq<string>, getHistory: HistoryFetcher,
                                     getFundamentals: FundamentalsFetcher, sqrt: real -> real, p: Params)
    ensures var t := Table(symbols, getHistory, getFundamentals, sqrt, p);
      var s := AsWrittenLoop(symbols, Analyzer(getHistory, getFundamentals, sqrt, p));
      (t.Failure? <==> s.Failure?) &&
      (t.Failure? ==> s.error == t.error) &&
      (t.Success? ==> s.value.portfolio == t.value && CutAfterLastRow(t.value, s.value.table))
  {
    AsWrittenLoopCuts(symbols, Analyzer(getHistory, getFundamentals, sqrt, p));
  }

  /**
   * `table` is `rows` cut just after its last non-Error row, or None when
   * every row is an Error row.
   */
  ghost predicate CutAfterLastRow(rows: seq<AnalysisRow>, table: Option<seq<AnalysisRow>>) {
    && (table.None? <==> forall i :: 0 <= i < |rows| ==> rows[i].ErrorRow?)
    && (table.Some? ==>
          exists k :: 0 <= k < |rows| && table.value == rows[..k + 1] && rows[k].Row? &&
            forall j :: k < j < |rows| ==> rows[j].ErrorRow?)
  }

  /** One iteration of the source's loop keeps the table cut after the last non-Error row. */
  lemma CutAfterLastRowStep(rows: seq<AnalysisRow>, table: Option<seq<AnalysisRow>>, row: AnalysisRow)
    requires CutAfterLastRow(rows, table)
    ensures CutAfterLastRow(rows + [row], if row.ErrorRow? then table else Some(rows + [row]))
  {
    var rows' := rows + [row];
    var n := |rows|;
    assert forall i :: 0 <= i < n ==> rows'[i] == rows[i];
    assert rows'[n] == row;
    if row.Row? {
      assert rows'[..n + 1] == rows';
    } else if table.Some? {
      var k :| 0 <= k < n && table.value == rows[..k + 1] && rows[k].Row? &&
        forall j :: k < j < n ==> rows[j].ErrorRow?;
      assert rows[..k + 1] == rows'[..k + 1];
    }
  }

  /** When the last row is not an Error row the source returns the intended table. */
  lemma AsWrittenAgreesWhenLastRowSucceeds(symbols: seq<string>, getHistory: HistoryFetcher,
                                           getFundamentals: FundamentalsFetcher, sqrt: real -> real, p: Params)
    requires Table(symbols, getHistory, getFundamentals, sqrt, p).Success?
    requires var rows := Table(symbols, getHistory, getFundamentals, sqrt, p).value; |rows| > 0 && rows[|rows| - 1].Row?
    ensures AsWritten(symbols, getHistory, getFundamentals, sqrt, p) == Table(symbols, getHistory, getFundamentals, sqrt, p)
  {
    AsWrittenDropsTrailingErrors(symbols, getHistory, getFundamentals, sqrt, p);
    var rows := Table(symbols, getHistory, getFundamentals, sqrt, p).value;
    assert rows[..|rows|] == rows;
  }

  /**
   * The discrepancy on concrete inputs: with no ticker, or with one ticker
   * whose history fetch fails, the source raises where the intended table is
   * empty or holds one Error row.
   */
  lemma AsWrittenLosesErrorOnlyTable(getFundamentals: FundamentalsFetcher, sqrt: real -> real)
    ensures AsWritten([], NoHistory, getFundamentals, sqrt, DefaultParams) == Failure(NoTableAssigned)
    ensures Table([], NoHistory, getFundamentals, sqrt, DefaultParams) == Success([])
    ensures AsWritten(["XYZ"], NoHistory, getFundamentals, sqrt, DefaultParams) == Failure(NoTableAssigned)
    ensures Table(["XYZ"], NoHistory, getFundamentals, sqrt, DefaultParams) == Success([ErrorRow("XYZ")])
  {
    assert ["XYZ"][..0] == [];
    assert AnalyzeTicker("XYZ", NoHistory, getFundamentals, sqrt, DefaultParams) == Emit(ErrorRow("XYZ"));
    assert Table(["XYZ"][..0], NoHistory, getFundamentals, sqrt, DefaultParams) == Success([]);
    assert [] + [ErrorRow("XYZ")] == [ErrorRow("XYZ")];
  }

  /** A history fetcher for which every fetch fails. */
  function NoHistory(symbol: string): Option<History> {
    None
  }
}
