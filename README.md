# 401k_optimize analytics core, in Dafny

This project models the analytics pipeline of `project/analytics/analytics.py`.
The pipeline has five stages:

1. The transaction ledger is summarised into one row per ticker (`summarize_portfolio`).
2. Each ticker gets a price analysis from a volume-weighted average price over the recent bars (`calculate_vwap`).
3. Each analysis row gets a Buy/Sell/Hold decision from Benjamin Graham's fundamental screen and a volume filter (`build_analysis_table`).
4. The holdings get an allocation (`build_portfolio_df`). This stage:
   - ranks the quant ratings;
   - keeps the held and top-rated tickers;
   - values the positions;
   - computes the desired position and the number of shares to trade.
5. The trades are split into a buys table and a sells table (`buys_and_sells_tables`).

The modules follow that structure:

| module | file | models |
|---|---|---|
| `Numeric` | Numeric.dfy | Floats as exact reals, extended with +inf, -inf and NaN. It has IEEE comparisons, Python's `min`, `x or float('inf')` and round-half-to-even `round(x, d)`. |
| `Seqs` | Seqs.dfy | `unique()`: distinct values in order of first appearance. |
| `Ledger` | Ledger.dfy | `summarize_portfolio` |
| `VwapCalculator` | Vwap.dfy | `calculate_vwap`: a loop with running sums, proved equal to a specification function. |
| `Screen` | Screen.dfy | The ETF list, the Graham threshold and screen, the volume filter and the decision. |
| `AnalysisTable` | AnalysisTable.dfy | `build_analysis_table`: the per-ticker row and the loop over the distinct tickers. It also models the loop as written (see Findings). |
| `Allocation` | Allocation.dfy | The allocation part of `build_portfolio_df`. It has an in-place insertion sort of the ratings, the cutoffs, retention, the price join, values, the total, the desired position and the adjustment. |
| `Actions` | Actions.dfy | `buys_and_sells_tables` |

The price-history fetch, the fundamentals fetch and the square root are parameters of the model. A failed fetch is `None`. Dates are whole day numbers counted from 1970-01-01, and the reference date is a parameter.

Where the source raises an exception, the model returns a `Failure`:
- an empty history has no last close;
- an empty VWAP window has no first row;
- fewer than 20 ratings cannot be indexed at 19.

## Model

| member | source | states |
|---|---|---|
| Ledger.Summarize | project/analytics/analytics.py:1-81 | The summary has one row per distinct ticker of the ledger, in first-seen order. Each row is that ticker's aggregate. |
| Ledger.OneRowPerDistinctTicker | project/analytics/analytics.py:41-50 | No two summary rows share a ticker. Every ledger ticker has a row, and every row's ticker occurs in the ledger. |
| Ledger.SummaryTickers | project/analytics/analytics.py:41-50 | Row i is the i-th distinct ticker. |
| Ledger.SummaryRowContents | project/analytics/analytics.py:31-60 | ASSET_CLASS, ALPHA_PICKED, QUANT_RATING and SECTOR come from the ticker's first transaction (pandas `first` takes the first non-null value; ledger cells are never null here). TOTAL_QUANTITY and TOTAL_COST are the sums of quantity and of price×quantity over its transactions. AVG_PURCHASE_PRICE exists exactly when the total quantity is nonzero, and is within 0.0005 of cost/quantity. |
| Ledger.TickerRowContents | project/analytics/analytics.py:31-60 | The same facts for the row of a given ticker. |
| Ledger.AveragePrice | project/analytics/analytics.py:60 | AVG_PURCHASE_PRICE exists iff the total quantity is nonzero, and it is a value with at most three decimals: rounding it again to 3 decimals leaves it unchanged. |
| Ledger.WeightedDate | project/analytics/analytics.py:63-69 | WEIGHTED_AVG_PURCHASE_DATE exists iff the total cost is nonzero. It is a whole day within half a day of the reference date plus the cost-weighted mean of the days since the reference date. |
| Ledger.AveragePriceWithinRounding | project/analytics/analytics.py:60 | The average price is defined iff the quantities do not cancel, and is at most half a thousandth from cost/quantity. |
| Ledger.GroupStartsAtFirstOccurrence | project/analytics/analytics.py:41-45 | The first transaction of a ticker's group is its first transaction in the ledger (groupby 'first'). |
| Ledger.GroupSumsAddUp | project/analytics/analytics.py:47-49 | The per-ticker sums of any column add up to the ledger's total of that column. |
| Ledger.TotalsConserved | project/analytics/analytics.py:31-48 | Summed over all rows, TOTAL_QUANTITY and TOTAL_COST equal the ledger's total quantity and total cost. |
| Ledger.WeightedMeanWithin | project/analytics/analytics.py:35-38 | With positive costs, Σ(cost·days)/Σcost lies between the earliest and latest day offsets of the group. |
| Ledger.WeightedDateWithinPurchaseDates | project/analytics/analytics.py:35-69 | With positive costs, a row's weighted purchase date exists and lies between its earliest and latest purchase dates. |
| Ledger.TickerWeightedDateWithin | project/analytics/analytics.py:35-69 | The same bound, for the row of a given ticker. |
| Ledger.TwoPurchasesAverage | project/analytics/analytics.py:47-60 | Two purchases of one ticker give one row. Its quantity is q1+q2 and its average price is (p1q1+p2q2)/(q1+q2), rounded to 3 decimals. |
| Ledger.TwoPurchasesRow | project/analytics/analytics.py:41-69 | Two purchases of one ticker give exactly one row: the first purchase's ticker, ALPHA_PICKED, QUANT_RATING, ASSET_CLASS and SECTOR, with the pair's weighted date, total cost, total quantity and average price. |
| Ledger.TwoPurchasesExample | project/analytics/analytics.py:31-69 | 10 shares at 100 on day 0 and 10 at 120 on day 30 give 20 shares and a cost of 2200. The average price is 110, and the weighted date is day 16: the mean is weighted by cost (36000/2200 ≈ 16.36 days), not by quantity. |
| Ledger.HalfDayTieGoesToEvenEpochDay | project/analytics/analytics.py:66-69 | A half-day tie in the weighted date is rounded on the day count from 1970-01-01: equal-cost purchases on days 1 and 2 with the reference date on day 1 give day 2, not day 1. |
| Seqs.Unique | project/analytics/analytics.py:189 | The result has no duplicates and the same members as the input. |
| Seqs.UniqueKeepsFirstSeenOrder | project/analytics/analytics.py:189 | Distinct tickers appear in the order of their first occurrence. |
| VwapCalculator.Window | project/analytics/analytics.py:163 | `bars[-days:]` is a suffix of the bars. Its length is min(days, n) for positive days, everything for 0, and n+days (at least 0) for negative days. |
| VwapCalculator.Vwap | project/analytics/analytics.py:158-169 | The result lacks a price exactly when there is no Volume column. The window is empty exactly when there are no bars, or when `days` is at most minus the number of bars (Python's `bars[-days:]` keeps every bar for 0 and for a large positive `days`). |
| VwapCalculator.CalculateVwap | project/analytics/analytics.py:158-169 | The loop's three running sums produce the specification `Vwap`. That is None without a Volume column, an empty frame for an empty window, otherwise Σ(low·vol)/Σvol and Σ(high·vol)/Σvol rounded to 2 decimals. |
| VwapCalculator.EntryAtMostExit | project/analytics/analytics.py:164-168 | With low ≤ high, non-negative volumes and positive total volume, Entry and Exit are finite and Entry ≤ Exit. |
| VwapCalculator.SilentWindowHasNoPrice | project/analytics/analytics.py:166-168 | A window with no traded volume gives NaN for both Entry and Exit (0/0). |
| VwapCalculator.NegativeVolumeCanInvertEntryAndExit | project/analytics/analytics.py:164-168 | Without the non-negative-volume condition, Entry can exceed Exit: the two-bar example gives Entry 0 and Exit -10. |
| VwapCalculator.SumBarsMonotone | project/analytics/analytics.py:164-166 | A cumulative sum of a pointwise smaller column is smaller. |
| Screen.GrahamBuyThreshold | project/analytics/analytics.py:226-233 | None exactly for an ETF. When eps or book value is not positive it is the VWAP buy threshold. Otherwise it is finite or +inf. |
| Screen.GrahamThresholdOfProfitableStock | project/analytics/analytics.py:227-231 | With eps and book value positive, the threshold is round(sqrt(38·eps·bv)·margin, 2). |
| Screen.GrahamNumberBound | project/analytics/analytics.py:229-230 | At any price up to sqrt(38·eps·bv), P/E × P/B is at most 38. |
| Screen.GrahamDesiredPriceBound | project/analytics/analytics.py:226-231 | For eps and book value positive, a square root exact at 38·eps·bv and a margin in (0, 1], the unrounded stock threshold sqrt(38·eps·bv)·margin is a positive price at which P/E × P/B ≤ 38. |
| Screen.EtfBypassesGraham | project/analytics/analytics.py:226-242 | An ETF has no Graham threshold and always passes the Graham screen. |
| Screen.GrahamScreenOnFiniteRatios | project/analytics/analytics.py:241-247 | On finite ratios, the screen holds iff ((pe<19 ∧ pb<2) ∨ (pe·pb<38 ∧ pe<100 ∧ pb<10)) ∧ yield ≥ 0 ∧ d/e < 2. |
| Screen.MissingRatioFailsScreen | project/analytics/analytics.py:241-247 | A ratio defaulted to +inf (P/E, P/B or debt/equity) fails the screen. |
| Screen.ValueRuleSubsumed | project/analytics/analytics.py:243-245 | For non-negative ratios, the first disjunct of the screen implies the second. |
| Screen.VolumeOk | project/analytics/analytics.py:235-238 | When every session traded the same volume, the filter passes iff that volume is non-negative. |
| Screen.GrahamScreen | project/analytics/analytics.py:241-247 | A stock that passes has P/E below 100, P/B below 10 and debt-to-equity below 2, whichever alternative it passed by. A NaN ratio or yield fails it. |
| Screen.VolumeOkIff | project/analytics/analytics.py:235-238 | The volume filter holds iff 5 · n · today ≥ the sum of the last n ≤ 21 volumes, i.e. today ≥ 0.2 × their mean. |
| Screen.SilentSessionFailsVolumeFilter | project/analytics/analytics.py:235-238 | A session with zero volume, after trading in the window, fails the filter. |
| Screen.Decide | project/analytics/analytics.py:249-254 | The decision is always Buy, Sell or Hold. |
| Screen.BuyIff | project/analytics/analytics.py:249-251 | For non-NaN thresholds, Buy holds iff the price is ≤ the VWAP threshold and ≤ the Graham threshold, with enough volume and a passed screen. An absent or zero Graham threshold means no limit. |
| Screen.BuyAtOrBelowThresholds | project/analytics/analytics.py:249-251 | For any thresholds, NaN included, a Buy is at or below the VWAP threshold and any finite nonzero Graham threshold, and has volume and a passed screen. |
| Screen.SellIff | project/analytics/analytics.py:249-254 | Sell holds iff not Buy, the price is ≥ the exit price, and volume is sufficient. |
| Screen.SellIgnoresGrahamScreen | project/analytics/analytics.py:252-253 | A stock that fails the Graham screen is still a Sell at or above the exit price. |
| Screen.LowVolumeHolds | project/analytics/analytics.py:249-254 | Without enough volume the decision is Hold. |
| Screen.ZeroGrahamThresholdIgnored | project/analytics/analytics.py:251 | A Graham threshold of 0 is falsy and is read as +inf. |
| Screen.NaNThresholds | project/analytics/analytics.py:251 | A NaN VWAP threshold never buys. A NaN Graham threshold is ignored by Python's `min`. |
| Numeric.RoundToBounds | project/analytics/analytics.py:167-168 | `round(x, d)` moves x by at most half a unit in the last kept decimal. |
| Numeric.RoundToIdempotent | project/analytics/analytics.py:167-168 | Rounding again to the same precision changes nothing. So re-rounding the VWAP Entry and Exit, which are already rounded to 2 decimals, is harmless. |
| Numeric.RoundToMonotone | project/analytics/analytics.py:220-223 | Rounding preserves ≤. |
| Numeric.RoundToKeepsSign | project/analytics/analytics.py:326 | Rounding keeps the sign of a value or maps it to 0. |
| Numeric.LeMinIffLeBoth | project/analytics/analytics.py:251 | With non-NaN bounds, p ≤ min(a, b) iff p ≤ a and p ≤ b. |
| Numeric.PyMinWithNaN | project/analytics/analytics.py:251 | `min` returns a NaN first argument and ignores a NaN second argument. |
| AnalysisTable.AnalyzeTicker | project/analytics/analytics.py:196-264 | The row emitted for a symbol carries that symbol. |
| AnalysisTable.Table | project/analytics/analytics.py:191-264 | A successful table has one row per symbol. |
| AnalysisTable.BuildAnalysisTable | project/analytics/analytics.py:189-264 | The loop returns the table over the distinct tickers, or the first exception raised. |
| AnalysisTable.OneRowPerSymbol | project/analytics/analytics.py:189-264 | A successful table has exactly one row per distinct ticker, in order, and row i is ticker i's analysis. |
| AnalysisTable.RowsInFirstSeenOrder | project/analytics/analytics.py:189 | Rows follow the order of first appearance of the tickers, and distinct rows have distinct symbols. |
| AnalysisTable.FirstFaultWins | project/analytics/analytics.py:196-222 | The build succeeds iff no ticker raises. Otherwise it stops with the fault of the first ticker that raises. |
| AnalysisTable.FailureIsFinal | project/analytics/analytics.py:196-222 | Once a ticker raises, the later tickers change nothing. |
| AnalysisTable.FailedFetchGivesErrorRow | project/analytics/analytics.py:201-217 | A ticker gets the all-None row rated "Error" exactly when its price fetch fails, it is a stock whose fundamentals fetch fails, or its history has no Volume column (VWAP None). |
| AnalysisTable.EtfRow | project/analytics/analytics.py:226-233 | An ETF row has no Graham threshold and no P/E, P/B or dividend yield. |
| AnalysisTable.DecisionMatchesRow | project/analytics/analytics.py:219-254 | A Buy row's price is at or below its entry_low and any finite nonzero entry_val. A Sell row's price is at or above its exit. |
| AnalysisTable.AsWritten | project/analytics/analytics.py:266-275 | As the source builds it, the table for no tickers is the unassigned-variable failure. Any table it does return ends with a non-Error row. |
| AnalysisTable.AsWrittenDropsTrailingErrors | project/analytics/analytics.py:266-275 | The table as written is the intended table cut after its last non-Error row. It is unassigned when there is no such row. |
| AnalysisTable.AsWrittenAgreesWhenLastRowSucceeds | project/analytics/analytics.py:266-275 | When the last row is not an Error row, the source returns the intended table. |
| AnalysisTable.AsWrittenLosesErrorOnlyTable | project/analytics/analytics.py:266-275 | Given no ticker, or one ticker whose fetch fails, the source raises where the intended table is empty or has one Error row. |
| Allocation.SortDescending | project/analytics/analytics.py:282 | The in-place sort leaves the array sorted highest first and a permutation of its old contents. |
| Allocation.QuantCutoffs | project/analytics/analytics.py:281-283 | Fewer than 20 ratings raises. Otherwise the threshold is the 20th-highest rating and the top-10 cutoff the 10th-highest, counted with multiplicity. |
| Allocation.SortedIndexIsKthHighest | project/analytics/analytics.py:282-283 | Index k of a sorted permutation of the ratings is their (k+1)-th highest value. |
| Allocation.KthHighestIsUnique | project/analytics/analytics.py:283 | The (k+1)-th highest value is unique, so the cutoffs do not depend on how ties are sorted. |
| Allocation.CountOfPermutation | project/analytics/analytics.py:282 | Counts above or at a value do not depend on the order of the ratings. |
| Allocation.CountsOfExtremes | project/analytics/analytics.py:282-284 | The counts of ratings above (or at least) a value are at most the number of ratings; they are zero exactly when every rating lies on the other side of the value, and full exactly when every rating lies on this side. |
| Allocation.Retain | project/analytics/analytics.py:284 | A row is kept iff it holds shares or its rating is strictly above the 10th-highest. |
| Allocation.AtMostNineUnheldKept | project/analytics/analytics.py:284 | At most nine rows without shares survive retention. |
| Allocation.UnheldKeptAreRatedAbove | project/analytics/analytics.py:284 | Every retained row without shares is rated strictly above the top-10 cutoff, so the retained rows without shares are no more than the ratings above that cutoff. |
| Allocation.RetainKeepsDistinctTickers | project/analytics/analytics.py:284 | Retention keeps tickers distinct. |
| Allocation.Lookup | project/analytics/analytics.py:292-299 | The left join finds a row of the analysis table with the ticker, or reports that none has it. |
| Allocation.LookupInDistinctTable | project/analytics/analytics.py:292-299 | In a table with distinct symbols, the join finds exactly that ticker's row. |
| Allocation.PriceOf | project/analytics/analytics.py:292-299 | The price is finite exactly when the join found a non-Error row; otherwise it is NaN. |
| Allocation.PositionValue | project/analytics/analytics.py:302 | VALUE is finite exactly when the price is; a missing price gives NaN. |
| Allocation.RowValueWithinRounding | project/analytics/analytics.py:302 | A known VALUE is within half a cent of quantity × price. |
| Allocation.TotalWithinRounding | project/analytics/analytics.py:302-305 | The portfolio total (NaN values skipped, plus cash) is within half a cent per row of the exact total. |
| Allocation.PortfolioTotal | project/analytics/analytics.py:305 | The sum skips NaN values: when no retained ticker has a priced row in the analysis table, the total is the cash position. |
| Allocation.DesiredPosition | project/analytics/analytics.py:323-325 | DESIRED_POS is 0 below the cutoff rating, and otherwise total · exposure · rating / 100. |
| Allocation.DesiredPositionWithinSlot | project/analytics/analytics.py:323-325 | For ratings in [0, 5], DESIRED_POS lies between 0 and total·exposure/20, reaching the full slot at rating 5. |
| Allocation.PositionAdjustment | project/analytics/analytics.py:326 | POS_ADJUSTMENT is NaN exactly when the value or the price is missing, or for 0/0. |
| Allocation.AdjustmentReachesDesiredPosition | project/analytics/analytics.py:326 | At a positive price, trading the adjustment brings the position to within half a share's price of DESIRED_POS. |
| Allocation.BelowCutoffNeverBought | project/analytics/analytics.py:323-326 | A long holding rated below the 20th-highest rating gets DESIRED_POS 0 and a finite adjustment ≤ 0. |
| Allocation.HoldingOf | project/analytics/analytics.py:292-326 | A retained row keeps its ticker, quantity and rating, and carries the analysis row that the left join finds for its ticker. Its price and its value are known exactly when the join found a non-Error row. |
| Allocation.Holdings | project/analytics/analytics.py:284-326 | There is one holding per retained row, with that row's ticker. |
| Allocation.HoldingsHaveDistinctTickers | project/analytics/analytics.py:284-299 | Holdings built from a summary with distinct tickers have distinct tickers. |
| Allocation.BuildPortfolio | project/analytics/analytics.py:277-326 | Over the modelled lines, fails iff there are fewer than 20 rows. Otherwise it returns the two rank cutoffs and the allocated holdings. |
| Actions.Buys | project/analytics/analytics.py:336-341 | A line is in the buys table iff it is the buy line of a holding whose adjustment is positive and actionable. |
| Actions.Sells | project/analytics/analytics.py:336-342 | A line is in the sells table iff it is the sell line of a holding whose adjustment is negative and actionable. |
| Actions.SplitIsAPartition | project/analytics/analytics.py:336-338 | The buys, sells and idle rows together number exactly the holdings. Each holding is exactly one of: a buy whose line is in the buys table, a sell whose line is in the sells table, or an idle row. |
| Actions.NoTickerBoughtAndSold | project/analytics/analytics.py:337-338 | With distinct tickers, no ticker is in both tables. |
| Actions.NoLedgerTickerBoughtAndSold | project/analytics/analytics.py:336-338 | Over the holdings built from a ledger summary, no ticker is in both tables. |
| Actions.Actionable | project/analytics/analytics.py:336 | A NaN or zero adjustment is never actionable. With no shares held, a finite adjustment is actionable iff it is nonzero (the ratio is infinite). |
| Actions.IsBuy | project/analytics/analytics.py:337 | A buy has a positive adjustment, possibly +inf, and never a negative one. |
| Actions.IsSell | project/analytics/analytics.py:338 | A sell has a negative adjustment, possibly -inf, and never a positive one. |
| Actions.ActionableIff | project/analytics/analytics.py:336 | For a nonzero quantity and a finite adjustment, ACTION holds iff \|adjustment\| > 0.2 × \|quantity\|. |
| Actions.UnheldTradeIsActionable | project/analytics/analytics.py:336-338 | With no shares held, any nonzero adjustment is actionable: a buy if positive, a sell if negative. |
| Actions.FifthIsNotActionable | project/analytics/analytics.py:336 | An adjustment of exactly a fifth of the shares held is not traded. |
| Actions.NothingToTradeIsIdle | project/analytics/analytics.py:336-338 | A NaN or zero adjustment is in neither table. |
| Actions.BelowCutoffNeverInBuys | project/analytics/analytics.py:323-337 | A long, priced holding rated below the cutoff never appears among the buys. |
| Actions.BuyLineCarriesAnalysis | project/analytics/analytics.py:334-341 | A buy line carries entry_low, entry_val and rating from the holding's analysis row. |

## Left out

- The Alpha Vantage fetchers `get_history` and `get_fundamentals` (lines 83-156). They are HTTP and JSON parsing. They are parameters returning an optional history or optional fundamentals.
- The `print` diagnostics and `time.sleep` (line 273): side effects with no result.
- `math.sqrt` (line 230) is a parameter of the model. Its value is not modelled.
- The reference date (lines 24-25) is a parameter; dates are whole day numbers. The run date (lines 287-288) feeds only the columns left out below and is not modelled.
- Floating point is modelled as exact reals plus ±inf and NaN in the computed columns (VWAP, thresholds, ratios, VALUE, POS_ADJUSTMENT). Representation error and signed zero are not modelled. `round` is round-half-to-even of the exact value; `to_timedelta` keeping only whole nanoseconds of the weighted days is not modelled.
- Ledger.Summarize: ledger cells (dates, prices, quantities, QUANT_RATING and the text columns) are finite and never null. pandas `first` skips nulls and sums skip NaN; with no nulls `first` is the first transaction.
- Allocation.BuildPortfolio: QUANT_RATING and the market price are finite reals. A NaN rating would make DESIRED_POS NaN (lines 323-325) and would disturb the ranking sort at line 282; that case is not modelled.
- VwapCalculator.CalculateVwap: the bars' low, high, close and volume are finite reals; a NaN cell in the price history is not modelled.
- Ledger.Summarize: the rows are in first-seen order of the tickers. pandas `groupby` sorts them by ticker (line 41). Sorting strings is not modelled, so every property here is stated per ticker or independently of the order.
- Ledger.Summarize: the in-place changes to the caller's frame (lines 28, 31-38, 79) are not modelled. Lines 31-38 add temporary columns and line 79 drops them again. Line 28 is a lasting side effect that the model drops: it converts the caller's ACQUIRED column to datetimes for good. In the model, ACQUIRED is already a day number and the caller's ledger is never changed.
- Ledger.Summarize: FIRST_ACQUIRED is computed (line 46) but dropped from the output (lines 72-76), so it is not modelled.
- `Allocation.SortDescending` models only the ranking sort (line 282). The two `sort_values` calls (lines 285 and 329) reorder rows without changing them, and the model keeps the summary's order.
- PW%, the AVG_PURCHASE_PRICE override for negative cost, TOTAL_RETURN, ROI, YEARS_HELD, TARGET and CAGR (lines 306-320) are not modelled. They use fractional exponentiation and the run date, and no allocation value depends on them. For the same reason the sells table has no TARGET column.
- Allocation.BuildPortfolio: the exceptions raised by lines 312-317 are not modelled: ZeroDivisionError when the run date equals the inception date (a zero holding period at line 314) or is 2022-07-01 (line 316), and TypeError from `min` at line 317 when `historical_return < -1` makes the CAGR complex. So "fails iff fewer than 20 rows" holds only for the modelled lines.
- Allocation.BuildPortfolio also returns the two cutoffs it computed, so its contract can name them. The source keeps them local.
- Allocation.Lookup models the left merge as a lookup of the first analysis row with the ticker. Duplicate tickers in the analysis table do not arise, because it is built from distinct tickers. Row duplication from a many-to-one merge is therefore not modelled.
- VwapCalculator.EntryAtMostExit needs non-negative volumes as well as low ≤ high and a positive total volume. `NegativeVolumeCanInvertEntryAndExit` shows the bound fails without it.
- project/portfolio_analytics.py, app.py and src/portfolio_manager/app.py are not part of this model: an exploratory script and Flask routes.

## Findings

| source | as written | input that shows it | evidently intended | confidence | as-written member | corrected member |
|---|---|---|---|---|---|---|
| project/analytics/analytics.py:266-275 | The table is built from `portfolio` inside the loop, and only in iterations that did not `continue`. The function returns whatever was last built. | Tickers whose last fetch fails lose their trailing Error rows. A ticker list with only failures, or no tickers at all, raises an unbound-variable error at line 275. `AsWrittenLosesErrorOnlyTable` shows this for `[]` and for `["XYZ"]` with a failing price fetch. | The table is built once, after the loop, from all rows, including Error rows. | not executed | AnalysisTable.AsWrittenDropsTrailingErrors | AnalysisTable.BuildAnalysisTable |
