# DCF valuation core of myapp, in Dafny

This project models the calculation core of myapp, a Streamlit app that values a company by discounted cash flow (DCF). It also proves properties of that model. The core has three parts:

- **The valuation pipeline** (`calculations.py`, `calculate_dcf`). Revenue grows from a base, year by year, at the rate of the growth phase the year falls in. Each year's revenue gives EBIT, tax, depreciation, capex, the change in working capital and free cash flow (FCF). Each FCF is discounted at `(1 + r/100)^year`. It is added to a running total and to its phase's subtotal. A Gordon-growth terminal value is computed from the last FCF and discounted. From these come the enterprise value, the fair value per share and the terminal value's weight. The run is refused when terminal growth is not below the discount rate.
- **The inline aggregation of a finished cash-flow table** (`input_tab.py`, lines 93-104). It takes the final FCF from the last row's FCF column. It computes the terminal value and discounts it over a horizon of at most 20 years. It sums the "PV of FCF" column over every row but the first. The equity value equals the enterprise value, and the fair value per share follows from it.
- **The spreadsheet table reader** (`file_loader.py`). Headers are normalised in two passes. The first pass renders dates as month-year, keeps other text, and numbers blank headers `Unnamed_1`, `Unnamed_2`, … . The second pass suffixes repeated names with their occurrence count. Data rows are collected under the header up to the first row with no value.

Files:

- `wrappers.dfy`: Option and Result.
- `discounting.dfy`: powers, discount factors and present values.
- `projection.dfy`: growth phases, revenue, one year's figures, present-value sums and phase subtotals.
- `terminal_value.dfy`: the perpetuity terminal value and the table aggregation.
- `dcf.dfy`: two things.
  - The valuation as a function, `Valuate`.
  - The year loop, `CalculateDcf`, which is proved equal to `Valuate`.

  It also holds the source's two-phase entry point on top of them, and the as-written revenue loop.
- `file_loader.dfy`: header normalisation and table extraction. Each loop of the source is a method proved against a specification function.

The growth split is generalised: the phases are any gap-free list of year ranges starting at year 1, and a range may be empty. The source's two phases, "years up to `x_years`" and "the rest up to `y_years`", are the instance `Dcf.TwoPhaseSplit`. The terminal value inside the pipeline uses the formula of `input_tab.py:99-100`. Its horizon is the number of projected years, the value the source passes as `y_years`. Money is `real`. Python's truthiness tests (`if shares`, `if ev`) are comparisons with 0.

## Model

| member | source | states |
|---|---|---|
| Discounting.Pow | calculations.py:27 | A power of a nonzero base is nonzero, of a positive base positive, and 0 raised to a positive exponent is 0 |
| Discounting.DiscountFactor | calculations.py:27 | `(1 + r/100)^year` is nonzero exactly when the year is 0 or `1 + r/100 != 0`, and positive when `r > -100` |
| Discounting.PresentValueIncreases | calculations.py:27 | At a rate above -100 percent, a larger amount has a strictly larger present value |
| Discounting.PresentValue | calculations.py:27 | The present value times the discount factor gives back the amount, and for `r > -100` it is positive exactly when the amount is |
| Projection.YearRow.Columns | input_tab.py:86 | A table row has the ten columns of the FCF table; the second-to-last is the FCF and the last is its present value |
| Projection.GrowthPctAt | calculations.py:16-19 | When every phase rate exceeds -100 percent, so does the rate looked up for any year (which phase's rate it is: GrowthPctOfPhase, GrowthPctOutsidePhases) |
| Projection.GrowthPctOutsidePhases | calculations.py:16-19 | A year that no phase contains grows at 0 percent |
| Projection.Revenue | calculations.py:10-19 | Year 0's revenue is the base revenue; every later year compounds the previous one (stated by RevenueStep and RevenueCompounds) |
| Projection.PhaseWithinHorizon | calculations.py:15-19 | Every phase of a valid list lies inside years 1..N |
| Projection.GrowthPctOfPhase | calculations.py:16-19 | In a gap-free phase list, the growth rate applied to a year is the rate of the phase that contains it |
| Projection.RevenueStep | calculations.py:15-19 | A year's revenue is the previous year's revenue, not the base, times `1 + g/100`, where g is the rate of the year's phase |
| Projection.RevenuePositive | calculations.py:15-19 | A positive base revenue stays positive in every year when no phase rate is -100 percent or lower |
| Projection.RevenueCompounds | calculations.py:16-17 | Under a single rate g, year n's revenue is `base * (1 + g/100)^n` |
| Projection.YearFigures | calculations.py:21-27 | EBIT, tax, depreciation, capex and working capital are the given percentages; tax is charged on EBIT of any sign; FCF = EBIT - tax + dep - capex - wc, which is revenue times the cash-flow rate; the PV times the discount factor is the FCF |
| Projection.FcfIncreasesWithMargin | calculations.py:21-26 | For positive revenue and a tax rate below 100 percent, a higher EBIT margin gives a strictly higher FCF |
| Projection.PvFcfIncreasesWithMargin | calculations.py:21-27 | For a positive base, rates above -100 percent, a discount rate above -100 percent and tax below 100 percent, a higher EBIT margin strictly raises every year's PV of FCF |
| Projection.ProjectedRows | calculations.py:15-27 | The table has one row per year 1..n, in order, and row i is year i+1's projection |
| Projection.PvSum | calculations.py:28 | The PV total over a range of years; an empty range totals 0 (additivity is PvSumSplit) |
| Projection.PvSumIncreasesWithMargin | calculations.py:27-28 | Under the same conditions, a higher EBIT margin strictly raises the PV total of any non-empty range of years |
| Projection.PvSumSplit | calculations.py:28 | The running PV total over a range of years splits at any year into the totals of the two parts |
| Projection.PhaseSubtotals | calculations.py:29-32 | There is one subtotal per phase, and each is the PV total of exactly that phase's years |
| Projection.SubtotalsThroughStep | calculations.py:29-32 | Adding year y's PV to the subtotal of y's phase, and to no other, turns the subtotals through year y-1 into the subtotals through year y |
| Projection.SubtotalsThroughHorizon | calculations.py:29-32 | After the last year, the running subtotals are the phase subtotals |
| Projection.PhaseSubtotalsAddUp | calculations.py:28-32 | The phase subtotals sum to the PV total of years 1..N |
| TerminalValue.TerminalDenominator | input_tab.py:99 | `r/100 - g/100` is positive exactly when `g < r` (the guard of calculations.py:5) and zero exactly when `g == r` |
| TerminalValue.GordonTerminalValue | input_tab.py:99 | The terminal value times `r/100 - g/100` equals the final FCF times `1 + g/100` |
| TerminalValue.TerminalValuePositive | input_tab.py:99 | Below the discount rate, with growth above -100 percent, a positive final FCF gives a positive terminal value |
| TerminalValue.TerminalValueIncreasesWithGrowth | input_tab.py:99 | For a positive final FCF and a discount rate above -100 percent, a higher growth rate below the discount rate gives a strictly higher terminal value |
| TerminalValue.TerminalValueIncreasesWithFcf | input_tab.py:99 | For -100 < g < r, a larger final FCF gives a strictly larger terminal value |
| TerminalValue.PresentTerminalValueIncreasesWithFcf | input_tab.py:99-100 | For -100 < g < r, a larger final FCF gives a strictly larger discounted terminal value |
| TerminalValue.PresentTerminalValue | input_tab.py:100 | The discounted terminal value times the discount factor of the horizon gives back the terminal value |
| TerminalValue.TerminalHorizon | input_tab.py:96 | The horizon is the forecast length capped at 20: it is at most both and equal to one of them |
| TerminalValue.PvColumnTotal | input_tab.py:101 | The sum of a table's "PV of FCF" column: 0 for no rows, and not negative when no entry is |
| TerminalValue.ValueFromTable | input_tab.py:93-104 | Covers an empty table (IndexError) and a zero divisor (ZeroDivisionError). Otherwise: final FCF from the last row; terminal value and its PV; the total sums every row but the first; EV = total + PV of TV; equity = EV; fair value = equity / shares, or 0 when shares is 0 |
| TerminalValue.PvColumnTotalOfProjection | input_tab.py:101 | Summing the PV column of the projected rows from row lo on gives the PV total of years lo+1..n |
| TerminalValue.TableTotalSkipsFirstYear | input_tab.py:101 | Applied to a projected table, the column total is the PV total of years 1..n minus year 1's PV |
| Dcf.Aggregate | calculations.py:36-38 | EV = total PV + PV of TV; fair value times shares is EV when shares is nonzero, else the fair value is 0; the weight times EV is 100 times the PV of TV when EV is nonzero, else the weight is 0 |
| Dcf.Valuate | calculations.py:5-38 | It fails with TerminalGrowthNotBelowWacc whenever g ≥ r, before anything else. It succeeds exactly when g < r, the phases are valid, at least one year is projected and `1 + r/100 != 0` |
| Dcf.ValuationPerShare | calculations.py:37-38 | A successful run's fair value times the shares is its EV when shares is nonzero, else the fair value is 0. Its terminal weight times EV is 100 times the PV of TV when EV is nonzero, else the weight is 0 |
| Dcf.EnterpriseValueIncreasesWithMargin | calculations.py:21-36 | For a positive base, rates above -100 percent, a discount rate above -100 percent, -100 < g < r and tax below 100 percent, a higher EBIT margin gives a strictly higher EV |
| Dcf.FairValueIncreasesWithMargin | calculations.py:21-37 | Under the same conditions and a positive share count, a higher EBIT margin gives a strictly higher fair value per share |
| Dcf.ValuationTotals | calculations.py:27-32 | A successful run's total is the PV sum of years 1..N; it has one subtotal per phase, each that phase's PV sum, and they add up to the total |
| Dcf.ValuationTerminal | calculations.py:34-36 | A successful run's final FCF is year N's FCF; its terminal value follows the perpetuity formula and is discounted over N years; EV = total + PV of TV |
| Dcf.CalculateDcf | calculations.py:5-38 | The year loop, with the guard, running revenue, running total and per-phase subtotals, returns exactly `Valuate` |
| Dcf.TwoPhaseSplit | calculations.py:15-19 | The two-phase split is a valid phase list whose horizon is `y_years`, or 0 when that is not positive |
| Dcf.TwoPhaseSplitRoutesYears | calculations.py:16-32 | A year grows at `growth_rate_x` and goes to the first subtotal exactly when it is at most `x_years`; otherwise it grows at `growth_rate_y` and goes to the second |
| Dcf.CalculateDcfTwoPhase | calculations.py:1-39 | The source's entry point. It fails when g ≥ r, and fails when no year is projected. It succeeds exactly when the general valuation of the two-phase split does, and otherwise fails with the same error, which includes `DivisionByZero` when `1 + r/100 == 0`. On success its five results are the general valuation's fair value, weight, two subtotals and PV of TV |
| Dcf.TwoPhaseSubtotalsAddUp | calculations.py:28-32 | `phase1_pv + phase2_pv == total_pv_fcf` |
| Dcf.YearOneScenario | calculations.py:15-27 | With base 1000, 10 percent then 5 percent growth, 20 percent margin and the other sample rates, year 1 has revenue 1100, EBIT 220, tax 55, FCF 154 and PV 140 |
| Dcf.AsWrittenRevenue | calculations.py:15-20 | The loop as written yields a revenue for year n exactly when n is 0 or at most `x_years`; every later year raises NameError |
| Dcf.AsWrittenAgreesInFirstPhase | calculations.py:16-17 | As written, the loop's revenue agrees with the corrected model in the first phase |
| Dcf.AsWrittenCounterexample | calculations.py:20 | With `x_years = 5`, `y_years = 10` the literal loop fails at year 6, while the corrected valuation succeeds |
| FileLoader.Formatted | file_loader.py:5-16 | The first pass gives one name per header |
| FileLoader.Deduplicated | file_loader.py:17-22 | The second pass gives one name per input name |
| FileLoader.NameHeaders | file_loader.py:5-16 | The naming loop with its running `blank_counter` computes the first pass |
| FileLoader.SuffixRepeats | file_loader.py:17-22 | The loop with its per-name counter computes the second pass |
| FileLoader.FormatColumnHeaders | file_loader.py:4-22 | The normalised headers are the second pass applied to the first |
| FileLoader.FormattedCases | file_loader.py:9-16 | A header that parses as a date becomes its rendering. A non-blank one that does not parse keeps `str(h)`. A blank one becomes `Unnamed_k`, where k is one more than the number of blank headers before it |
| FileLoader.PlaceholdersIncrease | file_loader.py:14-16 | A later blank header gets a strictly larger placeholder number |
| FileLoader.PlaceholdersConsecutive | file_loader.py:14-16 | Every number from 1 to the number of blank headers is used, so there are no gaps |
| FileLoader.FirstOccurrenceKept | file_loader.py:19-21 | The first occurrence of a name is emitted unchanged |
| FileLoader.RepeatSuffixed | file_loader.py:19-21 | The k-th occurrence (k > 1) of a name is emitted as `name_k` |
| FileLoader.DistinctNamesUnchanged | file_loader.py:17-22 | Names that are already distinct pass through unchanged |
| FileLoader.DeduplicationNotInjective | file_loader.py:17-21 | The suffixed names need not be unique: `a, a, a_2` becomes `a, a_2, a_2` |
| FileLoader.Take | file_loader.py:32 | `iloc[i, 0:col_count]` is the first `col_count` cells of the row, or the whole row when it is shorter |
| FileLoader.TableEnd | file_loader.py:31-34 | The table ends at the first all-null row at or after the start, or at the end of the frame; every row before that has a value |
| FileLoader.TableRows | file_loader.py:30-35 | The data rows are the consecutive rows right after the header, cut to `col_count`, none all-null, ending at the frame's end or just before an all-null row |
| FileLoader.CollectRows | file_loader.py:30-35 | The loop with its `break` collects exactly those rows |
| FileLoader.FirstLabelledRow | file_loader.py:25 | It finds the first row whose first cell is the label, or reports that there is none |
| FileLoader.ExtractTable | file_loader.py:24-35 | Fails when the label is missing (IndexError) or the header row is past the frame. Otherwise the column names are the normalised header row and the rows are the data rows under it |

## Left out

- The Streamlit UI is not part of this model: `app.py`, `dcf_tab.py`, `data_checks_tab.py`, `disclaimer.py`, and lines 1-92 and 105-107 of `input_tab.py` (widgets, session state, display formatting).
- `assumption_builder.py`, the importer that fills the session state, is not part of this model. It is UI glue.
- `calculate_terminal_value` (calculations.py:35) is defined in none of the files. The pipeline uses the formula of `input_tab.py:99-100` in its place, discounted over the number of projected years. That count is the `y_years` argument the source passes.
- The unused `discount_factors` list (calculations.py:8) is left out, because nothing reads it. So is `fcf_data` (calculations.py:9), which is never appended to.
- The call-site mismatches are not modelled. `dcf_tab.py:81-95` passes a `net_Debt` argument that `calculate_dcf` does not take and unpacks eight results where it returns five. `input_tab.py:71-84` calls it with other keyword names. The model follows the signature and the 5-tuple of calculations.py:1-39.
- There is no net debt. `calculations.py` takes no net-debt argument, has no equity value, and divides the terminal weight by the enterprise value; `input_tab.py:103` sets equity value to enterprise value. `dcf_tab.py:81-95` and `dcf_tab.py:132-135` expect a variant that takes `net_Debt` and returns an equity value; neither calculations.py, input_tab.py nor dcf_tab.py defines it.
- The only validation in the code is `g >= r`. Besides it, the model has two refusals where Python raises, and one of its own:
  - `NoProjectedYears`: no year is projected, so `fcf` is unbound at calculations.py:34.
  - `DivisionByZero`: `1 + r/100 == 0`, where calculations.py:27 raises ZeroDivisionError.
  - `InvalidPhases`: the generalised phase list is not gap-free. No Python path raises this, because the source has only the two phases, and the two-phase split always passes (`Dcf.TwoPhaseSplit`).

  Negative shares, a non-positive base revenue and rates below -100 are not refused, because the code does not refuse them. A discount rate of exactly -100 is refused only through `DivisionByZero`, not as an invalid assumption.
- Floating-point rounding and the `.2f` display formatting are left out. All money is exact `real` arithmetic.
- `pd.to_datetime` and `strftime("%b-%Y")` are a parameter `parse`. It gives the rendering of a cell, or None when parsing or formatting raises.
- FileLoader.IsBlank: `str(h).strip()` is approximated by the fixed set of characters Python treats as whitespace. So is `pd.notnull`, as "not Missing". Other cell values are kept as their `str` text.
- FileLoader.ExtractTable: it takes `start_row_offset` as a natural number. A negative offset, which pandas would count back from the end, is not modelled. The label search compares the first cell by position and ignores the frame's index labels.
- FileLoader.ExtractTable: it stops at the collected header names and rows. Building the `DataFrame`, dropping the columns whose first data row is null, and `fillna(0)` (file_loader.py:37-39) are not modelled. So when no data row is collected, the model returns a table with no rows, where `df_temp.iloc[0]` at file_loader.py:38 raises IndexError.
- FileLoader.ExtractTable: `col_count` is always passed explicitly; the default of 11 (file_loader.py:24) is not modelled.
- Projection.YearFigures: the "Net Operating PAT" column (input_tab.py:86) is taken to be EBIT less tax; neither calculations.py nor input_tab.py computes it.
- Concurrency and reentrancy are left out: a run is a pure function of its inputs.

## Findings

| source | as written | input that shows it | evidently intended | confidence | as-written member | corrected member |
|---|---|---|---|---|---|---|
| calculations.py:20 | Every year after `x_years` multiplies revenue a second time by `1 + growth_6/100`; since `growth_6` is defined nowhere, that raises NameError | `x_years = 5`, `y_years = 10`, any rates with `terminal_growth < interest_pct`: the run fails at year 6 | Years after `x_years` grow once, at `growth_rate_y` | high, not executed | Dcf.AsWrittenRevenue, Dcf.AsWrittenCounterexample | Dcf.Valuate, Dcf.CalculateDcf |
