# Quadrants: money and economy regime indicators

This project models the indicator pipeline of the Quadrants script (`Quadrants.py`).
The script turns three raw series into two yearly indicators and places each year in
one of four macro regimes. The three series are:

- the consumer price index (CPI);
- the S&P 500 index;
- the WTI crude oil price.

Every step is a pure function over a column of `(key, cell)` rows. In the daily or
monthly columns the key is a day number. In the year-end columns it is the year. A cell
is `Some(x)` or `None`, where `None` stands for pandas' missing value.

- **Money** (`money.dfy`, module `Money`). The 2-year and 10-year annualised CPI
  rates use a row lag of 24 and 120. Each rate is resampled to year ends (the
  resampling itself is in `series.dfy`). The year-over-year `diff` of each
  resampled rate gives `2y_roc` and `10y_roc`, and their difference is `roc_diff`.
  The strict inflation and deflation masks come from the same two columns.
- **Economy** (`economy.dfy`, module `Economy`):
  - the inner join of the equity and oil quotes on dates, and their ratio;
  - the 2555-day right-closed trailing mean with `min_periods=1`;
  - the deviation `economy = Ratio - MA_7Y` and the green and red fill masks.
- **Series primitives** (`series.dfy`, module `TimeSeries`): lookup by label, the
  inner join of two labelled columns, and `resample('YE').last()`.
- **Quadrants** (`quadrants.dfy`, module `Quadrants`):
  - the combined year table, both as the script builds it and as the intended inner join;
  - the latest point;
  - a regime label that keeps the script's boundary choices. Economy `>= 0` is
    expansion. Money `> 0` is inflation and `< 0` is deflation, so a money value of
    exactly `0` is in neither.

Two things are parameters rather than definitions:

- The calendar is a function `yearOf` from a day number to its year. Where ordering
  matters, it is assumed monotone.
- The fractional power `x ** (1/h)` is a function `root: (real, nat) -> real`. The
  lemmas state the facts they need about it: `root(1, h) == 1`, and for compounding,
  that `root(x, h)` raised to the power `h` gives back `x`.

Four boundary cases, as the script handles them:

- **Zero money value.** The masks at `Quadrants.py:42-43` are strict, so a money value
  of exactly 0 is in neither the inflation nor the deflation branch.
  `Quadrants.Classify` follows them and labels such a year `Flat`.
- **Years without an observation.** `resample('YE').last()` keeps every year between
  the first and the last as a row, with a missing cell when the year has no value.
  `TimeSeries.Resample` keeps the row, and `TimeSeries.LastInMissing` says exactly
  when its cell is missing.
- **Mismatched years at the combine step.** The `DataFrame` construction at
  `Quadrants.py:131-135` raises an error when the economy column has a year the money
  column lacks, rather than dropping that year; see "## Findings".
- **Zero oil price.** The division at `Quadrants.py:90` runs after `dropna`, so a zero
  oil price gives an infinity that stays in the column. The model requires non-zero
  oil prices (`Economy.NonZero`).

## Model

| member | source | states |
|---|---|---|
| Money.Rate | Quadrants.py:24-25 | The rate column keeps the CPI column's rows and dates. Row i has a rate exactly when i >= lag and both row i and row i - lag have a CPI value. The lag counts rows, not time. |
| Money.RateCompounds | Quadrants.py:24-25 | When `root` is a true h-th root, compounding the lagged CPI value by (1 + rate/100) for h years gives the current CPI value. |
| Money.ConstantCpiRateIsZero | Quadrants.py:24-25 | For a constant positive CPI, every row from row `lag` on has rate exactly 0, and every earlier row has none. |
| TimeSeries.LastIn | Quadrants.py:28 | A year's resampled cell, when present, is the value of some row of that year. |
| TimeSeries.Resample | Quadrants.py:28 | Resampling labels its rows with strictly ascending, consecutive years, from the first row's year to the last row's, and gives nothing for an empty column. |
| TimeSeries.ResampleShape | Quadrants.py:28 | For a sorted column and a monotone calendar, year-end resampling is empty only for an empty column. It gives strictly ascending years, one per year, with no gap from the first row's year to the last row's. Each year's cell is the last present value of that year. |
| TimeSeries.ResampleCoversRows | Quadrants.py:28 | The year of every input row is among the resampled years. |
| TimeSeries.LastInMissing | Quadrants.py:28 | A year's resampled cell is missing exactly when every row of that year has no value. |
| TimeSeries.LastInIsLastPresent | Quadrants.py:28 | A year's resampled cell is the value of the last row of that year that has a value. |
| TimeSeries.ResampleOnePerYear | Quadrants.py:128 | A column that already has one row per consecutive year resamples to the same cells, labelled by year. |
| TimeSeries.ResampleSameLabels | Quadrants.py:28 | Two columns with the same dates resample to the same years. This is why `2y_roc` and `10y_roc` share an index. |
| Money.DiffExample | Quadrants.py:31-32 | `diff` of [(2001, 5), (2002, 8)] is [(2001, missing), (2002, 3)]. |
| Money.Diff | Quadrants.py:31-32 | `diff` keeps the column's length and years, and its first year is always missing: that row has no predecessor. |
| Money.DiffTelescopes | Quadrants.py:31-32 | Over any run of present cells i..k, the value at row i plus the differences of rows i + 1..k is the value at row k. So `diff` loses only the starting level of each run, including the run after the missing first years of a year-end rate column. |
| Money.Roc | Quadrants.py:28-32 | The year-over-year change of a year-end rate has strictly ascending years, and its first year is missing. |
| Money.RocDiff | Quadrants.py:35 | `roc_diff` keeps the rocs' years. A row is defined exactly when both `2y_roc` and `10y_roc` are defined there. |
| Money.MasksFollowRocDiff | Quadrants.py:35-43 | A year is in the inflation mask exactly when `roc_diff` is defined and positive, and in the deflation mask exactly when it is defined and negative. The two masks never overlap. A zero difference is in neither. |
| Money.InflationMask | Quadrants.py:42 | The mask has one entry per year, and a year where either roc is missing is never marked: a comparison with a missing cell is false. |
| Money.DeflationMask | Quadrants.py:43 | The mask has one entry per year, and a year where either roc is missing is never marked. |
| Money.MoneyIndicator | Quadrants.py:24-35 | The money column has strictly ascending years, and its first year is always missing. |
| Money.Inflation | Quadrants.py:42 | The script's `inflation` series marks exactly the years where the money indicator is defined and positive. |
| Money.Deflation | Quadrants.py:43 | The script's `deflation` series marks exactly the years where the money indicator is defined and negative. |
| Money.ConstantCpiHasNoSignal | Quadrants.py:24-43 | For a constant positive CPI, the money indicator is 0 wherever it is defined, and no year is marked inflation or deflation. |
| TimeSeries.InnerJoin | Quadrants.py:85-87 | The join has at most as many rows as the first column, and each row's second value is the second column's value at that row's label. |
| TimeSeries.InnerJoinSpec | Quadrants.py:85-87 | Concatenating two columns and dropping missing rows keeps exactly the labels where both columns have a value, once each and ascending. Each row carries the two values found at its label. |
| TimeSeries.ValueAtRow | Quadrants.py:85-87 | In a sorted column, looking up a row's own label finds that row's cell. |
| Economy.Ratios | Quadrants.py:90 | The ratio row keeps the joined row's date, and the ratio times the oil price is the equity price. |
| Economy.RatioDates | Quadrants.py:85-90 | The ratio column has a row exactly at the dates where both the equity quote and the oil quote are present. |
| Economy.RatioValues | Quadrants.py:85-90 | At each ratio row, the ratio times that day's oil price is that day's equity price. |
| Economy.Ratio | Quadrants.py:85-90 | The ratio column's dates are strictly ascending. |
| Economy.Window | Quadrants.py:91 | The window of every row is non-empty, because a row lies in its own window. So with `min_periods=1` the moving average is defined at every row. |
| Economy.MovingAverage | Quadrants.py:91 | `MA_7Y` has one row per ratio row, on the same date. Its values are described by `Economy.TrailingMean`. |
| Economy.TrailingMean | Quadrants.py:91 | `MA_7Y` at row i is the mean of the ratios of exactly those rows dated in (t - span, t], where t is row i's date. The left end is excluded and the right end is included. |
| Economy.WindowSuffix | Quadrants.py:91 | The window of row i is made of the rows k..i, and those are exactly the rows dated in (t - span, t]. |
| Economy.InWindowSuffix | Quadrants.py:91 | In a column sorted by date, the rows dated after a bound form a suffix, and the window is the ratios of that suffix. |
| Economy.WholeHistoryMean | Quadrants.py:91 | When the span is longer than the history up to row i, `MA_7Y` there is the mean of all ratios so far. |
| Economy.MovingAverageBounded | Quadrants.py:91 | `MA_7Y` at row i lies between any lower and upper bound on the ratios up to row i. |
| Economy.DeviationStartsAtZero | Quadrants.py:91-94 | At the first row, `MA_7Y` equals the ratio, so `economy` is 0. |
| Economy.ThreeRatioExample | Quadrants.py:91-94 | For ratios 10, 12 and 8 on consecutive days, `MA_7Y` at the third day is 10 and `economy` there is -2. |
| Economy.Deviation | Quadrants.py:94 | `economy` keeps the ratio's dates, and `economy >= 0` exactly when `Ratio >= MA_7Y`. |
| Economy.AboveTrend | Quadrants.py:108 | The green fill has one entry per row and holds exactly where `economy >= 0`. |
| Economy.BelowTrend | Quadrants.py:111 | The red fill has one entry per row and holds exactly where `economy < 0`. |
| Economy.TrendMasksPartition | Quadrants.py:107-112 | Every row is in exactly one of the green fill (`Ratio >= MA_7Y`) and the red fill (`Ratio < MA_7Y`). It is green exactly when `economy >= 0`. |
| Economy.EconomyDaily | Quadrants.py:85-94 | The daily `economy` column has one row per joined date, ascending. It starts at 0 and is non-negative exactly where the ratio is at or above its 2555-day mean. |
| Economy.EconomyAnnual | Quadrants.py:128 | The year-end economy column has strictly ascending years. |
| Quadrants.Combine | Quadrants.py:131-135 | The script's combined table is refused exactly when the economy column has a year that the money column lacks. When it is accepted, it is the inner join on years. |
| Quadrants.UnionKeepsSize | Quadrants.py:131-135 | The union of the money years with the economy years is as large as the money years exactly when every economy year is a money year. This is the length check pandas makes. |
| Quadrants.CombineRefusesNewerEconomyYear | Quadrants.py:131-135 | With money years [2023] and economy years [2023, 2024], the script's table is refused, while the inner join keeps 2023. |
| Quadrants.KeysCount | Quadrants.py:131-135 | A column with strictly ascending labels has as many distinct labels as rows. This is the length that pandas compares the `date` array against. |
| Quadrants.JoinYearsExample | Quadrants.py:131-135 | The years {2000, 2001, 2002} and {2001, 2002, 2003} join on 2001 and 2002, ascending, each with its two values. |
| Quadrants.QuadrantTable | Quadrants.py:131-135 | The intended combined table has strictly ascending years and never holds the first year of the money column, whose cell is always missing. |
| Quadrants.QuadrantTableSpec | Quadrants.py:131-135 | The combined table, from the unshifted money column, holds exactly the years where money and economy are both defined, once each and ascending, with their two values. Its latest point has the greatest year. |
| Quadrants.Latest | Quadrants.py:167 | The latest point exists exactly when the table is non-empty. It is a row of the table, and in a sorted table it has the greatest year. |
| Quadrants.Classify | Quadrants.py:42-43 | The money signal is `Flat` exactly when the money value is 0. The growth is expansion exactly when the economy value is not negative. |
| Quadrants.ClassifyMatchesMasks | Quadrants.py:42-43 | The regime label is `Inflationary` exactly where the inflation mask holds, `Deflationary` exactly where the deflation mask holds, and expansion exactly where the green fill holds. |
| Quadrants.ClassifyScaleInvariant | Quadrants.py:157-158 | Scaling both indicators by a positive factor keeps the regime. The regime depends only on which side of each zero line a point lies. |
| Quadrants.ClassifyExample | Quadrants.py:157-158 | A year with money 4.0 and economy -1.5 is contraction with `Inflationary`. |
| Quadrants.CurrentRegime | Quadrants.py:167 | The current regime exists exactly when the table is non-empty. In a sorted table it is the label of the row with the greatest year. |

## Left out

- Data download (`Quadrants.py:19-21`, `81-82`): these are network reads. The three
  input columns are parameters, and the end date `datetime.now()` is not modelled.
- Plotting, titles, the `"{0:.3g}"` formatting, and the loops that label inflation runs
  and annotate points (`Quadrants.py:46-70`, `97-120`, `137-175`): these only render.
  Three expressions inside these ranges are modelled even though they only feed the
  charts: the green and red fill masks (`107-112`), the quadrant lines at zero that
  define the regime boundaries (`157-158`), and the latest point `iloc[-1]` (`167`).
- The one-year display shift of `roc_diff` (`Quadrants.py:38-39`): it feeds only the
  step plot, not the combined table.
- `openImage` and its `subprocess.Popen` call (`Quadrants.py:10-14`, with calls at 71,
  120 and 175): these are operating-system side effects.
- Output file names (`Quadrants.py:70`, `119`, `174`): a date-to-string step that only
  feeds `savefig`.
- Floating point: all arithmetic is on `real`. IEEE rounding, NaN and infinity are not
  modelled, and `x ** (1/h)` is the parameter `root`.
- Money.Rate: requires every present CPI cell to be positive. For other values the
  script's result is finite, infinite or NaN depending on the case, and the model does
  not reproduce it.
- Economy.Ratio: requires non-zero oil prices. The script gives an infinity for a
  zero oil price, which survives `dropna`, and the model does not reproduce it.
- Calendar arithmetic: day numbers and the function `yearOf` stand in for
  timestamps, and the 2555-day `Timedelta` is an integer day count. The one-year
  `pd.DateOffset` appears only in the display shift (`Quadrants.py:39`) and the shading
  loop (`57-61`), both left out above, so no calendar offset is modelled.
- TimeSeries.ResampleShape: stated for date-sorted input. pandas spans the minimum
  to the maximum year of any index, and the model spans the first to the last row.
  The two agree for the sorted columns the script reads.
- Economy.TrailingMean: stated for distinct, ascending dates, which the join
  guarantees. Duplicate dates in a rolling window are not modelled.
- The in-place growth of the `df` and `annual_df` frames by new columns is not
  modelled. Each column is a separate function of the columns it is computed from.

## Findings

| source | as written | input that shows it | evidently intended | confidence | as-written member | corrected member |
|---|---|---|---|---|---|---|
| Quadrants.py:131-135 | The combined frame is built from two year-indexed Series and the raw array `annual_df.index`. pandas indexes the frame by the union of the two Series' years and raises `ValueError` when the array's length differs from that union's size. | Money years [2023] with economy years [2023, 2024]. The CPI for January is dated 1 January and is published in mid-February. So from the first day of a new year with both an S&P 500 and a WTI quote until that release, the economy column has the new year and the money column does not. | A table of the years where both indicators are defined, then `dropna`. The year is already the frame's index. | not executed; medium | Quadrants.CombineRefusesNewerEconomyYear | Quadrants.QuadrantTableSpec |
