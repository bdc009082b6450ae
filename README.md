# corp-health-dashboard, modelled in Dafny

corp-health-dashboard scores the financial health of a set of listed companies. It has
four stages:

1. **Ingest.** It fetches each company's annual 10-K figures from the SEC's XBRL
   company-facts service and a recent share price from Yahoo Finance, and puts them in
   one row per ticker (`src/ingest_sec.py`).
2. **Transform.** It normalises the column names, zero-fills missing numbers and keeps
   the latest fiscal year per ticker (`src/transform.py`).
3. **Metrics.** It derives size, profitability, liquidity, leverage and cash-generation
   ratios (`src/metrics.py`).
4. **Scoring.** It z-scores those ratios across the peer set, combines them into four
   weighted category scores, rescales the total to 0-100 and ranks the companies
   (`src/scoring.py`).

This project models those four stages and proves what each one promises.

## How the model is organised

| module | file | models |
|---|---|---|
| `Wrappers` | wrappers.dfy | `Option` and `Result` |
| `Frames` | frames.dfy | cells, numeric values (`NaN` explicit), rows and tables |
| `Text` | text.dfy | `str.upper`, `str.strip`, `str.replace` |
| `Tickers` | tickers.dfy | the Yahoo and SEC ticker spellings |
| `Json` | json.dfy | JSON scalars, Python truth, `int()`, `float()`, `str()` |
| `TickerMap` | tickermap.dfy | `_ticker_map`, `_resolve_cik` |
| `Facts` | facts.dfy | `_extract_latest_annual_value` and the two share-candidate lookups |
| `Fetch` | fetch.dfy | `fetch_fundamentals_and_price` row assembly, `fetch_bulk` |
| `CellOrder` | order.dfy | the order pandas sorts ticker and fy cells in |
| `Transform` | transform.dfy | `prepare_financials` |
| `Metrics` | metrics.dfy | `safe_div`, `compute_metrics` |
| `Stats` | stats.dfy | `nanmean`, `nanstd`, `min`, `max` over a column with NaN |
| `ZScores` | zscore.dfy | `_zscore` |
| `Ranking` | ranking.dfy | `sort_values("score_0_100", ascending=False)` |
| `Scoring` | scoring.dfy | `score_companies` |

The data model:

- A table is a set of column names plus a sequence of rows. Each row maps a column to a
  cell: `Num`, `Text` or `Null`.
- `Null` stands for both pandas' NaN and Python's None.
- A numeric reading of a cell is `Val(x)` or `NaN`. Arithmetic propagates `NaN` as
  numpy does.
- `prepare_financials` works on a positional frame instead: a list of labels, a
  numeric-dtype flag per column, and rows of cells. A rename can give two columns the
  same label, which a set of names cannot hold.

Which code is imperative and which is pure:

- Loops that update local state are methods with loop invariants, each proved equal to a
  specification function. These are:
  - `BuildTickerMap`;
  - `ExtractLatestAnnualValue` and `LatestShares`;
  - `WriteItems`, `AssembleRow` and `CompleteRow`;
  - `CollectFrames`, `VisitTicker` and `FillDefaults`;
  - `FillMissing` and `PrepareFinancials`;
  - `ScoreCompanies`, whose column loop checks each required column.
- Everything else is a function. The properties are lemmas about those functions.

Parameters:

- The network calls are parameters: the SEC ticker table's rows, the company-facts
  download, the price lookup, and the single-ticker fetch used by `fetch_bulk`.
- `numpy.sqrt` is also a parameter. `ZScores.IsSqrt` states when it is a true square
  root, and the lemmas that need that fact require it.

The model follows the code, except where a line below names a difference. The bug
recorded under "## Findings" is modelled as written by `Fetch.FetchFundamentals`;
`Fetch.AssembledCorrected` gives the corrected row.

## Model

| member | source | states |
|---|---|---|
| Text.Strip | src/ingest_sec.py:42 | `str.strip()`: the result is no longer than the input, and is empty or neither starts nor ends with whitespace |
| Text.StripIsSlice | src/ingest_sec.py:42 | strip only removes a prefix and a suffix: the result is a contiguous slice of the input |
| Text.LStripRemovesSpace | src/ingest_sec.py:42 | every character removed from the left is whitespace |
| Text.RStripRemovesSpace | src/ingest_sec.py:42 | every character removed from the right is whitespace |
| Text.StripBlank | src/ingest_sec.py:190-191 | a stripped ticker is empty (skipped by `if not t`) exactly when every character is whitespace |
| Text.StripIdempotent | src/ingest_sec.py:46 | stripping twice is stripping once |
| Text.StripMap | src/ingest_sec.py:42 | strip commutes with any per-character map that keeps whitespace as whitespace |
| Tickers.YfHasNoDot | src/ingest_sec.py:40-42 | the Yahoo spelling never contains a '.' |
| Tickers.SecHasNoDash | src/ingest_sec.py:45-46 | the SEC spelling never contains a '-' |
| Tickers.StripCommutes | src/ingest_sec.py:42 | upper-casing and the separator replacements may be done before or after stripping with the same result |
| Tickers.YfIdempotent | src/ingest_sec.py:40-42 | normalising to the Yahoo spelling twice changes nothing more |
| Tickers.SecIdempotent | src/ingest_sec.py:45-46 | normalising to the SEC spelling twice changes nothing more |
| Tickers.SecOfYf | src/ingest_sec.py:40-46 | the SEC spelling of a Yahoo spelling is the SEC spelling of the original |
| Tickers.YfOfSec | src/ingest_sec.py:40-46 | the Yahoo spelling of an SEC spelling is the Yahoo spelling of the original |
| TickerMap.ZFill | src/ingest_sec.py:36 | `zfill`: pads with '0' on the left up to the width, after a leading sign, and never shortens |
| TickerMap.ZFillOfDigits | src/ingest_sec.py:36 | a CIK of at most ten digits becomes exactly ten digits with the same numeric value |
| TickerMap.TickerEntry | src/ingest_sec.py:33-36 | a table row contributes an entry only with a non-empty ticker and a CIK padded to at least ten characters |
| TickerMap.BuildTickerMap | src/ingest_sec.py:31-37 | the loop builds exactly the map `TickerMapOf` of the table's rows |
| TickerMap.TickerMapKeys | src/ingest_sec.py:31-37 | a ticker is a key exactly when some row of the table gives it |
| TickerMap.TickerMapLastWins | src/ingest_sec.py:32-36 | when several rows give the same ticker, the CIK of the last one is kept |
| TickerMap.TickerMapEntries | src/ingest_sec.py:33-36 | every key is non-empty, upper-case and stripped; every CIK has at least ten characters |
| TickerMap.BeforeDot | src/ingest_sec.py:56 | `t.split(".")[0]`: a prefix of the ticker that contains no '.' |
| TickerMap.Lookup | src/ingest_sec.py:52-59 | an exact key wins; otherwise a `.A`/`.B` class share falls back to its base ticker; otherwise the not-found error is raised; a found CIK is a value of the map |
| TickerMap.FallbackIsShorter | src/ingest_sec.py:55-56 | the fallback base ticker is a proper prefix, at least two characters shorter |
| TickerMap.ResolveEitherSpelling | src/ingest_sec.py:49-59 | a ticker and its Yahoo spelling resolve alike: both fail, or both give the same CIK |
| TickerMap.ResolvedCikIsPadded | src/ingest_sec.py:49-59 | a CIK resolved from the ticker table has at least ten characters |
| Json.DigitsRoundTrip | src/ingest_sec.py:73 | the decimal digits of a natural number read back as that number |
| Json.ParseIntRoundTrip | src/ingest_sec.py:73 | `int()` of the decimal string of an integer gives that integer |
| Json.ParseDecimalOfInteger | src/ingest_sec.py:74 | `float()` of the decimal string of an integer gives that integer as a real |
| Json.TruncateBounds | src/ingest_sec.py:73 | `int()` of a float truncates towards zero: the result is within one of the value, on the zero side |
| Facts.Annual | src/ingest_sec.py:71-77 | an item contributes (fy, val) only if its form is 10-K or 10-K/A, its `fy` is truthy, and `int(fy)` and `float(val)` both succeed with those values |
| Facts.AnnualsOfMembers | src/ingest_sec.py:70-77 | a pair is collected from a unit's items exactly when some item contributes it |
| Facts.CollectedMembers | src/ingest_sec.py:69-77 | a pair is collected across the requested units exactly when some unit has an item contributing it |
| Facts.LatestIndex | src/ingest_sec.py:80-81 | the stable sort by fy followed by `[-1]` picks a row of greatest fy, and every later row has a strictly smaller fy |
| Facts.ExtractLatestAnnualValue | src/ingest_sec.py:62-81 | the loop computes `LatestAnnual` of the concept |
| Facts.LatestAnnualSpec | src/ingest_sec.py:62-81 | None exactly when nothing contributes; otherwise a contributed pair whose fy is the greatest of all contributed pairs |
| Facts.NothingInEmptyConcept | src/ingest_sec.py:64-66 | a missing concept contributes nothing |
| Facts.CandidateValues | src/ingest_sec.py:91-92 | one latest-annual lookup per candidate concept, in `shares` units, in order |
| Facts.LatestShares | src/ingest_sec.py:84-111 | the candidate loop computes `BestOf` of the candidates' lookups |
| Facts.BestOfNone | src/ingest_sec.py:90-96 | no best value exactly when every candidate gives None |
| Facts.BestOfFirstLatest | src/ingest_sec.py:93-95 | the best value is the first candidate's value among those with the greatest fy |
| Facts.TieKeepsFirst | src/ingest_sec.py:94 | with equal fiscal years the earlier candidate is kept (the comparison is strict) |
| Facts.SharesSpec | src/ingest_sec.py:169-173 | no shares exactly when all four candidates give None; any instant value means the best instant value is used; otherwise the best duration value |
| Fetch.ValuesOf | src/ingest_sec.py:157-158 | one latest-annual USD lookup per item concept, in order |
| Fetch.FoundCellsSpec | src/ingest_sec.py:157-161 | a column is written exactly when some item for it was found, and holds the value of the last such item |
| Fetch.LatestFyIsMax | src/ingest_sec.py:156-163 | `latest_fy` is at least -1, bounds every found fy, and is -1 or one of them |
| Fetch.Fundamentals | src/ingest_sec.py:155-163 | the row holds the SEC-spelled ticker and only item columns, all numeric |
| Fetch.WriteItems | src/ingest_sec.py:156-163 | the loop writes exactly the found cells and computes `latest_fy` |
| Fetch.AssembleRow | src/ingest_sec.py:155-181 | the statements compute exactly the specified row |
| Fetch.CompleteRow | src/ingest_sec.py:165-181 | ebitda, shares, price and fy are added as specified |
| Fetch.ChooseShares | src/ingest_sec.py:169-171 | instant shares, else duration shares, equal `Shares` of the document |
| Fetch.AssembledItems | src/ingest_sec.py:157-161 | each item column is in the final row exactly when its concept was found, with the found value |
| Fetch.AssembledEbitda | src/ingest_sec.py:165-167 | ebitda is present exactly when ebit and da are, and equals their sum |
| Fetch.AssembledFy | src/ingest_sec.py:156-181 | fy is present exactly when some found item has a positive fy; it is then the greatest found fy |
| Fetch.AssembledShares | src/ingest_sec.py:172-173 | shares_basic is present exactly when shares were found, with their value |
| Fetch.AssembledQuote | src/ingest_sec.py:155-178 | the row always has the ticker, the price and its date (None when the lookup has no date) |
| Fetch.FetchFundamentals | src/ingest_sec.py:127-183 | an unresolvable ticker raises the not-found error, a failed download raises its error, otherwise the row is assembled as line 169 does: the items from the `facts` member, the shares looked up in the document's top level (so never found, see "## Findings"), and the quote of the Yahoo spelling |
| Fetch.NoSharesWithoutTaxonomy | src/ingest_sec.py:84-111 | a document without a `us-gaap` member yields no shares |
| Fetch.SharesLostAsWritten | src/ingest_sec.py:169-173 | as written, a company document whose top level has no `us-gaap` member never gets shares_basic |
| Fetch.SharesLostExample | src/ingest_sec.py:169-171 | a filing whose facts report 1000 shares for FY2023 still gets no shares_basic as written |
| Fetch.AssembledCorrected | src/ingest_sec.py:169-173 | reading shares from `facts`, shares_basic is present exactly when the filing reports shares, with their value |
| Fetch.ColumnsOf | src/ingest_sec.py:201 | the concatenated table's columns are exactly those of some frame |
| Fetch.Pad | src/ingest_sec.py:201 | a row widened by `concat` keeps its cells and has NaN in the other columns |
| Fetch.Concat | src/ingest_sec.py:201 | `concat` gives a well-formed table with the union of the columns and one row per frame |
| Fetch.WithDefault | src/ingest_sec.py:204-205 | adding a default column keeps the table well-formed and adds only that column |
| Fetch.Defaulted | src/ingest_sec.py:203-205 | after the defaults, the columns are the old ones plus shares_basic and price |
| Fetch.DefaultedCell | src/ingest_sec.py:203-205 | an existing column keeps its cell; a default column that was missing holds 1.0 |
| Fetch.FetchBulk | src/ingest_sec.py:186-206 | the method returns `Bulk` of the tickers |
| Fetch.CollectFrames | src/ingest_sec.py:187-198 | the loop collects one frame per outcome, in ticker order |
| Fetch.VisitTicker | src/ingest_sec.py:190-198 | one loop pass updates the frames and the seen set exactly as one `Visit` |
| Fetch.VisitSkips | src/ingest_sec.py:190-192 | a blank ticker, or one whose upper-case form was already fetched, changes nothing |
| Fetch.VisitAdds | src/ingest_sec.py:190-198 | any other ticker adds exactly one outcome |
| Fetch.FillDefaults | src/ingest_sec.py:203-205 | the defaults loop computes `Defaulted` |
| Fetch.SkipsBlankAndSeen | src/ingest_sec.py:190-192 | appending a blank or already fetched ticker leaves the outcomes unchanged |
| Fetch.SuccessAdds | src/ingest_sec.py:193-195 | a new ticker that fetches appends its row under its upper-case key and marks it seen |
| Fetch.FailureAdds | src/ingest_sec.py:196-198 | a new ticker that fails appends an error row and is not marked seen |
| Fetch.FailureRetried | src/ingest_sec.py:195-198 | a failing ticker given twice is tried twice and leaves two error rows |
| Fetch.OutcomesBound | src/ingest_sec.py:189-198 | there are never more frames than tickers |
| Fetch.FetchedKeysDistinct | src/ingest_sec.py:191-195 | no two fetched rows share an upper-case ticker |
| Fetch.OutcomesFromTickers | src/ingest_sec.py:189-198 | every frame comes from one of the input tickers, stripped |
| Fetch.NoOutcomes | src/ingest_sec.py:189-200 | there are no frames exactly when every ticker is blank |
| Fetch.BulkShape | src/ingest_sec.py:199-205 | with a non-blank ticker, the result has one row per frame and the frames' columns plus the defaults |
| Fetch.BulkCells | src/ingest_sec.py:201-205 | each cell is the frame's own cell, NaN for a column another frame brought, or 1.0 for a missing default |
| Fetch.BulkEmpty | src/ingest_sec.py:199-200 | the result is the empty table exactly when every ticker is blank |
| CellOrder.StrLessIrreflexive | src/transform.py:36 | no ticker sorts before itself |
| CellOrder.StrLessTransitive | src/transform.py:36 | the string order is transitive |
| CellOrder.StrLessTotal | src/transform.py:36 | any two different strings are ordered |
| CellOrder.CellLessIrreflexive | src/transform.py:36 | no cell sorts before itself |
| CellOrder.CellLessTransitive | src/transform.py:36 | the cell order is transitive |
| CellOrder.CellLessTotal | src/transform.py:36 | any two different cells are ordered |
| Transform.Rename | src/transform.py:12-28 | every label in the rename map takes its canonical name, the other labels and all data are kept, and no provider name remains |
| Transform.RenameIdempotent | src/transform.py:12-28 | renaming a second time changes nothing |
| Transform.FillColumn | src/transform.py:33 | `fillna(0)` on one column: its missing cells become 0, and nothing else changes |
| Transform.FillMissing | src/transform.py:30-33 | the fill loop computes `Filled` |
| Transform.FilledCells | src/transform.py:30-33 | the labels and row count are kept; a numeric column other than ticker and period whose label names no other column has no missing cell, and its missing cells became 0; present cells, columns sharing a label and the other columns are untouched |
| Transform.SharedLabelKeepsMissing | src/transform.py:28-33 | when `Revenues` and `revenue` both become `revenue`, a missing cell of either is left missing |
| Transform.KeyLeTotal | src/transform.py:36 | any two rows are ordered by (ticker, fy) one way or the other |
| Transform.KeyLeTransitive | src/transform.py:36 | the (ticker, fy) order is transitive |
| Transform.InsertRow | src/transform.py:36 | inserting into sorted rows adds exactly that row |
| Transform.InsertRowSorted | src/transform.py:36 | inserting into rows sorted by (ticker, fy) keeps them sorted |
| Transform.SortRows | src/transform.py:36 | the sort is a permutation of the rows |
| Transform.SortRowsSorted | src/transform.py:36 | the sort orders the rows by (ticker, fy) |
| Transform.LatestPerTicker | src/transform.py:36 | every kept row is an input row with a ticker |
| Transform.LatestPerTickerAscending | src/transform.py:36 | the kept rows have strictly ascending tickers |
| Transform.LatestPerTickerCovers | src/transform.py:36 | every ticker of the input keeps a row |
| Transform.LatestPerTickerLatest | src/transform.py:36 | no input row of the same ticker has a later fy than the kept row |
| Transform.AscendingTickersDistinct | src/transform.py:36 | therefore the kept rows have distinct tickers |
| Transform.PrepareFinancials | src/transform.py:7-38 | without fy: renamed and filled; with fy: a missing or duplicated ticker label, or a duplicated fy label, raises; otherwise the latest row per ticker |
| Metrics.Column | src/metrics.py:19-44 | `df.get(name, 0)`: a missing column reads as 0, and a defined reading is the cell's number |
| Metrics.SafeDiv | src/metrics.py:8-9 | defined exactly when both operands are and the divisor's magnitude exceeds 1e-12, and then the quotient times the divisor is the dividend |
| Metrics.MarketCapIsPriceTimesShares | src/metrics.py:19 | market cap is price times shares, 0 when either column is missing, NaN exactly when either is NaN |
| Metrics.EnterpriseValueDecomposes | src/metrics.py:20-21 | net debt is short plus long debt minus cash, and EV is market cap plus net debt |
| Metrics.FreeCashFlowAtMostOperatingCashFlow | src/metrics.py:42-43 | FCF is defined exactly when OCF and capex are, never exceeds OCF, and the FCF margin times revenue is FCF |
| Metrics.EbitdaRatiosUndefinedIffEbitdaNearZero | src/metrics.py:38-44 | without an ebitda column both EBITDA ratios are NaN; when ebitda and the ratio's numerator (net debt, or enterprise value) are defined, each is NaN exactly when ebitda is within 1e-12 of zero |
| Metrics.QuickRatioAtMostCurrentRatio | src/metrics.py:30-31 | with positive current liabilities and non-negative inventory, the quick ratio is at most the current ratio |
| Metrics.WithDerivedKeepsOwnCells | src/metrics.py:16-44 | the row gains exactly the derived columns and keeps its other cells |
| Metrics.WrittenRows | src/metrics.py:16-44 | writing the derived metrics and reading them back gives the same metrics, and other cells are kept |
| Metrics.ComputeMetrics | src/metrics.py:12-46 | ZeroDivisionError exactly when every operand column of some ratio is missing (`0 / 0` on the integers `df.get` returns); otherwise the same rows with the derived columns added, other cells kept, each row's derived values those of its own inputs, well-formedness kept |
| Metrics.DivisorsPresentCompute | src/metrics.py:24-41 | a table with the revenue, total-assets, equity and current-liabilities columns never raises |
| Metrics.AllFailedBatchRaises | src/metrics.py:24 | the table of a batch in which every fetch failed (ticker, error, shares_basic, price) raises ZeroDivisionError |
| Metrics.MetricsOfRow | src/metrics.py:19-30 | when the metrics are computed, each output row carries its own market cap, current ratio and ROE |
| Metrics.FixtureARatios | tests/test_metrics.py:8-28 | the first fixture company has market cap 50, current ratio 1.5, ROE 0.2, D/E 0.25 |
| Metrics.FixtureBRatios | tests/test_metrics.py:8-28 | the second fixture company has market cap 200, current ratio 1.2, ROE 0.12, D/E 25/150 |
| Metrics.FixtureMetrics | tests/test_metrics.py:29-32 | on the fixture the metrics are computed without error, current_ratio and debt_to_equity are columns, and the market caps are finite (50 and 200) |
| Stats.Defined | src/scoring.py:16-17 | the non-NaN values of a column: none exactly when every entry is NaN |
| Stats.DefinedContains | src/scoring.py:16-17 | every defined entry is among the values the means use |
| Stats.DefinedComesFrom | src/scoring.py:16-17 | every value the means use is a defined entry of the column |
| Stats.VarianceNonNegative | src/scoring.py:17 | the population variance is never negative |
| Stats.MeanOfConstant | src/scoring.py:16 | the mean of a constant column is that constant |
| Stats.VarianceOfConstant | src/scoring.py:17 | the variance of a constant column is 0 |
| Stats.Min | src/scoring.py:53 | `z.min()`: a member no greater than any value |
| Stats.Max | src/scoring.py:53 | `z.max()`: a member no smaller than any value |
| Stats.DefinedWithinRange | src/scoring.py:53 | every defined entry lies between the column's minimum and maximum |
| ZScores.Standardized | src/scoring.py:20 | `(col - mu) / sd` entry by entry, NaN kept |
| ZScores.StandardizedMeetsSpec | src/scoring.py:20 | each standardised entry times sd is the entry minus mu, and NaN stays NaN |
| ZScores.ZScore | src/scoring.py:15-20 | same length as the column; every defined entry gets a defined z-score |
| ZScores.ZScoreOfFlatColumn | src/scoring.py:18-19 | a column whose spread is below 1e-12 gets all zeros, NaN entries included |
| ZScores.ZScoreOfSpreadColumn | src/scoring.py:16-20 | any other column with a value is standardised by its NaN-ignoring mean and standard deviation |
| ZScores.ZScoreOfEmptyColumn | src/scoring.py:16-20 | an all-NaN column stays all NaN, since the NaN spread fails the guard |
| ZScores.SpreadGuardIsVarianceTest | src/scoring.py:17-18 | with a true square root, the guard holds exactly when the variance is below 1e-24 |
| ZScores.ZScoreSumsToZero | src/scoring.py:15-20 | the defined z-scores of any column sum to zero |
| ZScores.StandardizedByMeanSumsToZero | src/scoring.py:16-20 | entries standardised by their own mean sum to zero |
| ZScores.ZScorePreservesOrder | src/scoring.py:18-20 | z-scoring never reverses the order of two defined entries |
| ZScores.ZScoreOfConstantColumn | src/scoring.py:15-19 | with a true square root, a constant column gets all zeros |
| Ranking.PrecedesTotal | src/scoring.py:55 | any two scores can be ordered by the descending-NaN-last order |
| Ranking.Insert | src/scoring.py:55 | inserting adds exactly that row |
| Ranking.InsertSorted | src/scoring.py:55 | inserting into rows sorted by score keeps them sorted |
| Ranking.SortByScore | src/scoring.py:55 | the sort is a permutation of the rows |
| Ranking.SortByScoreSorted | src/scoring.py:55 | the sort puts higher scores first and rows without a score last |
| Scoring.ResolveWeights | src/scoring.py:7-50 | no weights or empty weights give the defaults, which sum to 1; otherwise the four keys are read, and the first missing one raises KeyError |
| Scoring.ColumnValues | src/scoring.py:34-38 | `df[c]` read as numbers, one per row |
| Scoring.Negated | src/scoring.py:38 | the negated z-score: NaN kept, every defined value negated |
| Scoring.CategoryMean | src/scoring.py:40-43 | `mean(axis=1)`: NaN exactly when every component is NaN, otherwise the mean of the defined components |
| Scoring.CategoryOfFour | src/scoring.py:40 | the profitability score is NaN exactly when all four of its z-scores are |
| Scoring.CategoryOfTwo | src/scoring.py:41-43 | a two-column category score is NaN exactly when both of its z-scores are |
| Scoring.WeightedTotal | src/scoring.py:45-50 | the total is defined exactly when all four category scores are |
| Scoring.Totals | src/scoring.py:45-50 | each row's total is the weighted total of its own four category scores |
| Scoring.RescaledBy | src/scoring.py:53 | defined entries are rescaled by min and max, and NaN stays NaN |
| Scoring.Rescale | src/scoring.py:52-53 | an entry of the 0-100 score is defined exactly when its z-score is |
| Scoring.ScaledInRange | src/scoring.py:53 | a value between min and max is scaled into [0, 100) |
| Scoring.RescaleInRange | src/scoring.py:52-53 | every defined 0-100 score lies in [0, 100) |
| Scoring.RescaleMinimumIsZero | src/scoring.py:53 | the least z-score is scaled to exactly 0 |
| Scoring.RescaleOfZeros | src/scoring.py:53 | a column of zeros is scaled to zeros |
| Scoring.WithScoresKeepsOwnCells | src/scoring.py:28-53 | the row gains exactly the score columns and keeps its other cells |
| Scoring.WrittenScores | src/scoring.py:28-53 | writing the scores and reading them back gives the same scores, and other cells are kept |
| Scoring.ScoredRows | src/scoring.py:28-53 | each scored row keeps its cells and carries its own z-scores, category scores, total and 0-100 score |
| Scoring.ScoreCompanies | src/scoring.py:23-55 | the first missing metric column raises KeyError, then a bad weights dictionary raises; otherwise the result has the score columns and is a permutation of the scored rows, sorted by score, each score NaN or in [0, 100) |
| Scoring.RankedInRange | src/scoring.py:52-55 | the ranked rows are sorted by score and every score is NaN or in [0, 100) |
| Scoring.ScoredInRange | src/scoring.py:52-53 | every scored row's score is NaN or in [0, 100) |
| Scoring.ScoredZColumns | src/scoring.py:34-38 | each of a row's nine z columns is the z-score of its metric column at that row, with debt-to-equity negated |
| Scoring.ScoredRowConsistent | src/scoring.py:40-50 | each row's category scores are the means of its own defined z-scores (NaN exactly when all are NaN), its leverage score is its z_debt_to_equity, and its total is the weighted sum of the categories |
| Scoring.LeverageInverted | src/scoring.py:37-42 | a company with lower debt-to-equity never gets a lower leverage score |
| Scoring.MinimumTotalScoresZero | src/scoring.py:52-53 | the company with the least total scores exactly 0 |
| Scoring.ZScoreOfFlatOrEmpty | src/scoring.py:18-19 | a NaN entry gets a defined z-score only in the flat-column branch |
| Scoring.EqualTotalsScoreZero | src/scoring.py:45-53 | when every defined total is equal, every company scores 0 |
| Scoring.SingleRowScoresZero | src/scoring.py:52-53 | a single company with a defined total scores 0 |
| Scoring.SingleRowUndefinedTotal | src/scoring.py:52-53 | a single company without a defined total has no score |

## Left out

Numbers:
- Floating point: numbers are exact reals. The thresholds 1e-12 in `safe_div` and `_zscore` and 1e-9 in the rescaling are exact reals too. Rounding is not modelled, and NaN is an explicit case.
- `numpy.sqrt` is a parameter, because Dafny has no real square root. The lemmas that need a true square root require `ZScores.IsSqrt`.

Network and I/O:
- `_get_json`, `requests`, the User-Agent and the timeout are not modelled. The SEC ticker table's rows and the company-facts download are parameters, and a failed download is an error result.
- `lru_cache` is not modelled.
- `_yf_latest_close` is a parameter returning a `Quote`. Its yfinance history query and its 1.0 fallback belong to that parameter.
- Fetch.FetchBulk: the single-ticker fetch is a parameter, and an exception's `str(e)` is the error string it returns.
- src/export.py, src/viz.py and app/streamlit_app.py are not part of this model. They are presentation and file export.

Text and parsing:
- Text.Upper: upper-cases only the ASCII letters `a`-`z`. Python's Unicode case mapping is not modelled.
- Json.ParseDecimal: `float()` of a string covers an optional sign, digits and one decimal point, with surrounding whitespace. Exponents, underscores, `inf` and `nan` are not modelled.
- Json.ParseInt: `int()` of a string covers the same form without a decimal point.
- TickerMap.Field: `str()` of a float in the ticker table is not modelled. Such an entry is skipped.

Tables:
- Table columns are a set. pandas' column order, index and dtypes are not modelled.
- A cell `concat` fills with NaN is a `Null` cell.
- Frames.NumberIn: a textual cell reads as NaN wherever a number is read. pandas instead raises TypeError on arithmetic with a string.
- Metrics.ComputeMetrics: the `price_col` and `shares_col` arguments are fixed at their defaults, `price` and `shares_basic`. These are the only values any caller in the repository passes.
- Metrics.Column: a textual cell in a column that `compute_metrics` reads gives NaN. pandas raises TypeError there, or, for a string times an integer, repeats the string.
- Scoring.ColumnValues: a textual cell in a scored column reads as NaN. `np.nanmean` of a column holding a string raises TypeError.
- Transform.PrepareFinancials: the numeric-dtype flag of each column is an input. It is not inferred from the cells.
- Transform.LatestPerTickerLatest: states that the kept row has the largest fiscal year of its ticker. It does not state which of several rows with that ticker and year is kept. The model keeps the last of them in input order, since its insertion sort is stable.
- Transform.PrepareFinancials: pandas raises TypeError when it compares a number with a string. The model instead gives mixed ticker or fiscal-year cells a fixed order: numbers, then text, then missing.

Scoring:
- Scoring.ScoreCompanies: pandas' quicksort leaves the order of equal scores unspecified. The model promises only that the rows are sorted and a permutation of the scored rows.

Shares:
- Facts.SharesSpec: `EntityCommonStockSharesOutstanding` is looked up in the `us-gaap` taxonomy, as the source does. In SEC filings it normally lives in `dei`.

## Findings

| source | as written | input that shows it | evidently intended | confidence | as-written member | corrected member |
|---|---|---|---|---|---|---|
| src/ingest_sec.py:169-171 | the share lookups get the whole company document `comp`. That document's top level has no `us-gaap` member, so the lookups always find nothing | a filing whose `facts.us-gaap.CommonStockSharesOutstanding` reports 1000 shares for FY2023 in a 10-K: shares_basic is missing from the row | look up shares in `facts`, like every other concept on line 158 | not executed | Fetch.SharesLostExample | Fetch.AssembledCorrected |
