/**
  * The per-year projection of the discounted-cash-flow model: revenue that
  * compounds phase by phase on the previous year, the cash-flow figures
  * derived from each year's revenue, and the present values summed over a
  * range of years.
  *
  * The source splits the horizon into two growth phases ("the first x_years"
  * and "the rest"); here a phase list is any ordered, gap-free list of year
  * ranges starting at year 1, and the two-phase split is one instance of it.
  */
module Projection {
  import opened Discounting

  /** Years `startYear..endYear` (inclusive) grow at `growthPct` percent a year.
      A phase with `startYear == endYear + 1` covers no year. */
  datatype Phase = Phase(startYear: nat, endYear: nat, growthPct: real)

  /** The percentage assumptions of one valuation run. */
  datatype Assumptions = Assumptions(
    baseRevenue: real,
    ebitMarginPct: real,
    depreciationPct: real,
    capexPct: real,
    interestPct: real,      // the discount rate ("WACC")
    wcChangePct: real,
    taxRatePct: real,
    shares: real,
    terminalGrowthPct: real)

  /** One row of the free-cash-flow table. */
  datatype YearRow = YearRow(
    year: nat,
    revenue: real,
    ebit: real,
    tax: real,
    nopat: real,
    depreciation: real,
    capex: real,
    wcChange: real,
    fcf: real,
    pvFcf: real)
  {
    /** The row as the table's list of columns: Year, Revenue, EBIT, Tax,
        Net Operating PAT, Depreciation, CapEx, Change in WC, Free Cash Flow,
        PV of FCF. */
    function Columns(): (cols: seq<real>)
      ensures |cols| == 10
      ensures cols[|cols| - 2] == fcf && cols[|cols| - 1] == pvFcf
    {
      [year as real, revenue, ebit, tax, nopat, depreciation, capex, wcChange, fcf, pvFcf]
    }
  }

  // ---------------------------------------------------------------------
  // Growth phases

  /** Every phase is a (possibly empty) range and each starts right after the previous one ends. */
  predicate Chained(phases: seq<Phase>)
  {
    (forall i :: 0 <= i < |phases| ==> phases[i].startYear <= phases[i].endYear + 1) &&
    (forall i :: 0 <= i < |phases| - 1 ==> phases[i + 1].startYear == phases[i].endYear + 1)
  }

  /** A gap-free, non-overlapping phase list covering years 1..Horizon(phases). */
  predicate ValidPhases(phases: seq<Phase>)
  {
    |phases| > 0 && phases[0].startYear == 1 && Chained(phases)
  }

  /** The forecast horizon: the last year of the last phase. */
  function Horizon(phases: seq<Phase>): nat
    requires |phases| > 0
  {
    phases[|phases| - 1].endYear
  }

  lemma {:induction false} PhasesOrdered(phases: seq<Phase>, i: nat, j: nat)
    requires Chained(phases) && i < j < |phases|
    ensures phases[i].endYear < phases[j].startYear
    decreases j
  {
    if j > i + 1 {
      PhasesOrdered(phases, i, j - 1);
    }
  }

  /** Every phase of a valid list lies inside years 1..Horizon. */
  lemma PhaseWithinHorizon(phases: seq<Phase>, q: nat)
    requires ValidPhases(phases) && q < |phases|
    ensures 1 <= phases[q].startYear <= Horizon(phases) + 1
    ensures phases[q].endYear <= Horizon(phases)
  {
    var last := |phases| - 1;
    if q < last {
      PhasesOrdered(phases, q, last);
    }
    if 0 < q {
      PhasesOrdered(phases, 0, q);
    }
  }

  /** The growth rate of the first phase containing `year` (0 when none does). */
  function GrowthPctAt(phases: seq<Phase>, year: int): (g: real)
    ensures RatesAboveMinus100(phases) ==> g > -100.0
  {
    if |phases| == 0 then 0.0
    else if phases[0].startYear <= year <= phases[0].endYear then phases[0].growthPct
    else GrowthPctAt(phases[1..], year)
  }

  /** A year that no phase contains grows at 0 percent. */
  lemma {:induction false} GrowthPctOutsidePhases(phases: seq<Phase>, year: int)
    requires forall i :: 0 <= i < |phases| ==> !(phases[i].startYear <= year <= phases[i].endYear)
    ensures GrowthPctAt(phases, year) == 0.0
  {
    if |phases| > 0 {
      var tail := phases[1..];
      forall i | 0 <= i < |tail|
        ensures !(tail[i].startYear <= year <= tail[i].endYear)
      {
        assert tail[i] == phases[i + 1];
      }
      GrowthPctOutsidePhases(tail, year);
    }
  }

  /** In a chained list the phase containing a year is unique, so its rate is the year's rate. */
  lemma {:induction false} GrowthPctOfPhase(phases: seq<Phase>, p: nat, year: int)
    requires Chained(phases) && p < |phases|
    requires phases[p].startYear <= year <= phases[p].endYear
    ensures GrowthPctAt(phases, year) == phases[p].growthPct
    decreases p
  {
    if p > 0 {
      PhasesOrdered(phases, 0, p);
      var tail := phases[1..];
      assert tail[p - 1] == phases[p];
      assert Chained(tail) by {
        forall i | 0 <= i < |tail| - 1
          ensures tail[i + 1].startYear == tail[i].endYear + 1
        {
          assert tail[i] == phases[i + 1] && tail[i + 1] == phases[i + 2];
        }
      }
      GrowthPctOfPhase(tail, p - 1, year);
    }
  }

  // ---------------------------------------------------------------------
  // Revenue

  /** Revenue of `year`: year 0 is the base, and every later year compounds the
      previous year's revenue by that year's phase rate. */
  function Revenue(baseRevenue: real, phases: seq<Phase>, year: nat): (r: real)
    ensures year == 0 ==> r == baseRevenue
  {
    if year == 0 then baseRevenue
    else Compound(Revenue(baseRevenue, phases, year - 1), GrowthPctAt(phases, year))
  }

  /** A year inside phase `p` of a valid list compounds the previous year's
      revenue (not the base) at that phase's rate. */
  lemma RevenueStep(baseRevenue: real, phases: seq<Phase>, p: nat, year: nat)
    requires ValidPhases(phases) && p < |phases|
    requires 1 <= year && phases[p].startYear <= year <= phases[p].endYear
    ensures Revenue(baseRevenue, phases, year)
            == Revenue(baseRevenue, phases, year - 1) * (1.0 + phases[p].growthPct / 100.0)
  {
    GrowthPctOfPhase(phases, p, year);
  }

  /** Every phase grows by more than -100 percent. */
  predicate RatesAboveMinus100(phases: seq<Phase>)
  {
    forall i :: 0 <= i < |phases| ==> phases[i].growthPct > -100.0
  }

  /** A positive base stays positive when no phase loses 100 percent or more. */
  lemma {:induction false} RevenuePositive(baseRevenue: real, phases: seq<Phase>, year: nat)
    requires baseRevenue > 0.0 && RatesAboveMinus100(phases)
    ensures Revenue(baseRevenue, phases, year) > 0.0
  {
    if year > 0 {
      RevenuePositive(baseRevenue, phases, year - 1);
      var prev := Revenue(baseRevenue, phases, year - 1);
      var factor := 1.0 + GrowthPctAt(phases, year) / 100.0;
      assert factor > 0.0;
      MulPositive(prev, factor);
      assert Revenue(baseRevenue, phases, year) == prev * factor;
    }
  }

  /** When every year of 1..year lies in phases of one rate `g`, revenue is the
      base compounded `year` times, i.e. growth compounds on the previous year. */
  lemma {:induction false} RevenueCompounds(baseRevenue: real, phases: seq<Phase>, g: real, year: nat)
    requires forall y :: 1 <= y <= year ==> GrowthPctAt(phases, y) == g
    ensures Revenue(baseRevenue, phases, year) == baseRevenue * Pow(1.0 + g / 100.0, year)
  {
    if year > 0 {
      RevenueCompounds(baseRevenue, phases, g, year - 1);
      CompoundPow(Revenue(baseRevenue, phases, year - 1), baseRevenue, g, year);
    }
  }

  // ---------------------------------------------------------------------
  // Cash flow of one year

  /** Free cash flow as a percentage of revenue: after-tax EBIT margin plus
      depreciation, less capex and the change in working capital. */
  function CashFlowRatePct(a: Assumptions): real
  {
    a.ebitMarginPct * (1.0 - a.taxRatePct / 100.0) + a.depreciationPct - a.capexPct - a.wcChangePct
  }

  /** The table row of `year` for the given revenue. Tax is charged on EBIT
      whatever its sign. */
  function YearFigures(a: Assumptions, year: nat, revenue: real): (row: YearRow)
    requires DiscountFactor(a.interestPct, year) != 0.0
    ensures row.year == year && row.revenue == revenue
    ensures row.ebit * 100.0 == revenue * a.ebitMarginPct
    ensures row.tax * 100.0 == row.ebit * a.taxRatePct
    ensures row.nopat == row.ebit - row.tax
    ensures row.depreciation * 100.0 == revenue * a.depreciationPct
    ensures row.capex * 100.0 == revenue * a.capexPct
    ensures row.wcChange * 100.0 == revenue * a.wcChangePct
    ensures row.fcf == row.nopat + row.depreciation - row.capex - row.wcChange
    ensures row.fcf * 100.0 == revenue * CashFlowRatePct(a)
    ensures row.pvFcf * DiscountFactor(a.interestPct, year) == row.fcf
  {
    var ebit := revenue * (a.ebitMarginPct / 100.0);
    var tax := ebit * (a.taxRatePct / 100.0);
    var dep := revenue * (a.depreciationPct / 100.0);
    var capex := revenue * (a.capexPct / 100.0);
    var wc := revenue * (a.wcChangePct / 100.0);
    var fcf := ebit - tax + dep - capex - wc;
    YearRow(year, revenue, ebit, tax, ebit - tax, dep, capex, wc, fcf,
            PresentValue(fcf, a.interestPct, year))
  }

  /** A higher EBIT margin gives a strictly higher free cash flow, for positive
      revenue and a tax rate below 100 percent. */
  lemma FcfIncreasesWithMargin(a: Assumptions, year: nat, revenue: real, higherMarginPct: real)
    requires DiscountFactor(a.interestPct, year) != 0.0
    requires revenue > 0.0 && a.taxRatePct < 100.0 && a.ebitMarginPct < higherMarginPct
    ensures YearFigures(a, year, revenue).fcf < YearFigures(a.(ebitMarginPct := higherMarginPct), year, revenue).fcf
  {
    var b := a.(ebitMarginPct := higherMarginPct);
    var keep := 1.0 - a.taxRatePct / 100.0;
    var dm := higherMarginPct - a.ebitMarginPct;
    var d := CashFlowRatePct(b) - CashFlowRatePct(a);
    assert d == dm * keep;
    MulPositive(dm, keep);
    MulPositive(revenue, d);
    assert revenue * CashFlowRatePct(b) - revenue * CashFlowRatePct(a) == revenue * d;
  }

  /** The projected row of `year` (year 0 is the base year). */
  function ProjectedYear(a: Assumptions, phases: seq<Phase>, year: nat): YearRow
    requires Discountable(a.interestPct)
  {
    YearFigures(a, year, Revenue(a.baseRevenue, phases, year))
  }

  /** The rows of years 1..n, in order. */
  function ProjectedRows(a: Assumptions, phases: seq<Phase>, n: nat): (rows: seq<YearRow>)
    requires Discountable(a.interestPct)
    ensures |rows| == n
    ensures forall i :: 0 <= i < n ==> rows[i] == ProjectedYear(a, phases, i + 1)
  {
    seq(n, i requires 0 <= i < n => ProjectedYear(a, phases, i + 1))
  }

  // ---------------------------------------------------------------------
  // Present values over a range of years

  /** Sum of the present values of the free cash flows of years lo..hi (0 when hi < lo). */
  function PvSum(a: Assumptions, phases: seq<Phase>, lo: nat, hi: int): (total: real)
    requires Discountable(a.interestPct)
    ensures hi < lo ==> total == 0.0
    decreases hi - lo
  {
    if hi < lo then 0.0 else PvSum(a, phases, lo, hi - 1) + ProjectedYear(a, phases, hi).pvFcf
  }

  /** Splitting a range of years at any point splits its present value. */
  lemma {:induction false} PvSumSplit(a: Assumptions, phases: seq<Phase>, lo: nat, mid: int, hi: int)
    requires Discountable(a.interestPct)
    requires lo - 1 <= mid <= hi
    ensures PvSum(a, phases, lo, mid) + PvSum(a, phases, mid + 1, hi) == PvSum(a, phases, lo, hi)
    decreases hi - mid
  {
    if mid < hi {
      PvSumSplit(a, phases, lo, mid, hi - 1);
    }
  }

  /** For a positive base revenue, growth rates above -100 percent, a discount
      rate above -100 percent and a tax rate below 100 percent, a higher EBIT
      margin gives every year a strictly higher present value of free cash flow. */
  lemma PvFcfIncreasesWithMargin(a: Assumptions, phases: seq<Phase>, higherMarginPct: real, year: nat)
    requires a.interestPct > -100.0 && a.baseRevenue > 0.0 && RatesAboveMinus100(phases)
    requires a.taxRatePct < 100.0 && a.ebitMarginPct < higherMarginPct
    ensures ProjectedYear(a, phases, year).pvFcf
            < ProjectedYear(a.(ebitMarginPct := higherMarginPct), phases, year).pvFcf
  {
    var revenue := Revenue(a.baseRevenue, phases, year);
    RevenuePositive(a.baseRevenue, phases, year);
    FcfIncreasesWithMargin(a, year, revenue, higherMarginPct);
    var low := YearFigures(a, year, revenue);
    var high := YearFigures(a.(ebitMarginPct := higherMarginPct), year, revenue);
    PresentValueIncreases(low.fcf, high.fcf, a.interestPct, year);
  }

  /** Under the same conditions the present value of any non-empty range of years
      strictly increases with the margin. */
  lemma {:induction false} PvSumIncreasesWithMargin(a: Assumptions, phases: seq<Phase>, higherMarginPct: real,
                                                    lo: nat, hi: int)
    requires a.interestPct > -100.0 && a.baseRevenue > 0.0 && RatesAboveMinus100(phases)
    requires a.taxRatePct < 100.0 && a.ebitMarginPct < higherMarginPct
    requires lo <= hi
    ensures PvSum(a, phases, lo, hi) < PvSum(a.(ebitMarginPct := higherMarginPct), phases, lo, hi)
    decreases hi - lo
  {
    var b := a.(ebitMarginPct := higherMarginPct);
    PvFcfIncreasesWithMargin(a, phases, higherMarginPct, hi);
    if lo < hi {
      PvSumIncreasesWithMargin(a, phases, higherMarginPct, lo, hi - 1);
    } else {
      assert PvSum(a, phases, lo, hi - 1) == 0.0 == PvSum(b, phases, lo, hi - 1);
    }
  }

  /** The present-value subtotal of each phase, in phase order. */
  function PhaseSubtotals(a: Assumptions, phases: seq<Phase>): (subtotals: seq<real>)
    requires Discountable(a.interestPct)
    ensures |subtotals| == |phases|
    ensures forall q :: 0 <= q < |phases| ==>
      subtotals[q] == PvSum(a, phases, phases[q].startYear, phases[q].endYear)
  {
    seq(|phases|, q requires 0 <= q < |phases| => PvSum(a, phases, phases[q].startYear, phases[q].endYear))
  }

  function Min(x: int, y: int): int
  {
    if x <= y then x else y
  }

  /** The phase subtotals once the years 1..last have been added in. */
  function SubtotalsThrough(a: Assumptions, phases: seq<Phase>, last: int): (subtotals: seq<real>)
    requires Discountable(a.interestPct)
    ensures |subtotals| == |phases|
  {
    seq(|phases|, q requires 0 <= q < |phases| =>
      PvSum(a, phases, phases[q].startYear, Min(phases[q].endYear, last)))
  }

  lemma SubtotalsThroughNone(a: Assumptions, phases: seq<Phase>)
    requires Discountable(a.interestPct) && ValidPhases(phases)
    ensures SubtotalsThrough(a, phases, 0) == seq(|phases|, _ => 0.0)
  {
    forall q | 0 <= q < |phases|
      ensures SubtotalsThrough(a, phases, 0)[q] == 0.0
    {
      PhaseWithinHorizon(phases, q);
    }
  }

  /** Adding in `year` changes only the subtotal of the phase containing it. */
  lemma SubtotalsThroughStep(a: Assumptions, phases: seq<Phase>, p: nat, year: nat)
    requires Discountable(a.interestPct) && Chained(phases) && p < |phases|
    requires phases[p].startYear <= year <= phases[p].endYear
    ensures var before := SubtotalsThrough(a, phases, year - 1);
      SubtotalsThrough(a, phases, year) == before[p := before[p] + ProjectedYear(a, phases, year).pvFcf]
  {
    var before := SubtotalsThrough(a, phases, year - 1);
    var after := SubtotalsThrough(a, phases, year);
    forall q | 0 <= q < |phases|
      ensures after[q] == before[p := before[p] + ProjectedYear(a, phases, year).pvFcf][q]
    {
      if q < p {
        PhasesOrdered(phases, q, p);
      } else if p < q {
        PhasesOrdered(phases, p, q);
      }
    }
  }

  lemma SubtotalsThroughHorizon(a: Assumptions, phases: seq<Phase>)
    requires Discountable(a.interestPct) && ValidPhases(phases)
    ensures SubtotalsThrough(a, phases, Horizon(phases)) == PhaseSubtotals(a, phases)
  {
    forall q | 0 <= q < |phases|
      ensures SubtotalsThrough(a, phases, Horizon(phases))[q] == PhaseSubtotals(a, phases)[q]
    {
      PhaseWithinHorizon(phases, q);
    }
  }

  /** Sum of a sequence of reals, left to right. */
  function Sum(s: seq<real>): real
  {
    if |s| == 0 then 0.0 else Sum(s[..|s| - 1]) + s[|s| - 1]
  }

  /** Every year's present value falls in exactly one phase, so the phase
      subtotals add up to the present value of the whole horizon. */
  lemma PhaseSubtotalsAddUp(a: Assumptions, phases: seq<Phase>)
    requires Discountable(a.interestPct) && ValidPhases(phases)
    ensures Sum(PhaseSubtotals(a, phases)) == PvSum(a, phases, 1, Horizon(phases))
  {
    var subtotals := PhaseSubtotals(a, phases);
    // Invariant: the first k subtotals cover years 1..endYear of phase k-1.
    var k := 1;
    assert subtotals[..1] == [subtotals[0]];
    assert Sum(subtotals[..1]) == subtotals[0];
    while k < |phases|
      invariant 1 <= k <= |phases|
      invariant Sum(subtotals[..k]) == PvSum(a, phases, 1, phases[k - 1].endYear)
    {
      assert subtotals[..k + 1][..k] == subtotals[..k];
      PhaseWithinHorizon(phases, k);
      PvSumSplit(a, phases, 1, phases[k - 1].endYear, phases[k].endYear);
      k := k + 1;
    }
    assert subtotals[..|phases|] == subtotals;
  }
}
