/**
  * The discounted-cash-flow valuation pipeline: project revenue and free cash
  * flow year by year, discount each year's cash flow, add it to a running
  * total and to the subtotal of its growth phase, then fold in the present
  * value of the terminal value and derive the fair value per share and the
  * weight of the terminal value in the enterprise value.
  *
  * `Valuate` states the result as a function of the inputs; `CalculateDcf`
  * computes it with the year loop and is proved equal to it.
  */
module Dcf {
  import opened Wrappers
  import opened Discounting
  import opened Projection
  import opened TerminalValue

  datatype Valuation = Valuation(
    phaseSubtotals: seq<real>,
    totalPvFcf: real,
    finalFcf: real,
    terminalValue: real,
    pvTerminal: real,
    enterpriseValue: real,
    fairValuePerShare: real,
    terminalWeightPct: real)

  datatype DcfError =
    | TerminalGrowthNotBelowWacc   // terminal growth must be below the discount rate
    | InvalidPhases                // phases not contiguous from year 1
    | NoProjectedYears             // no year projected, so there is no final cash flow
    | DivisionByZero               // 1 + rate/100 == 0

  /** Enterprise value, fair value per share and terminal weight from the
      present values. */
  function Aggregate(phaseSubtotals: seq<real>, totalPvFcf: real, finalFcf: real,
                     terminalValue: real, pvTerminal: real, shares: real): (v: Valuation)
    ensures v.phaseSubtotals == phaseSubtotals && v.totalPvFcf == totalPvFcf
    ensures v.finalFcf == finalFcf && v.terminalValue == terminalValue && v.pvTerminal == pvTerminal
    ensures v.enterpriseValue - v.pvTerminal == totalPvFcf
    ensures shares != 0.0 ==> v.fairValuePerShare * shares == v.enterpriseValue
    ensures shares == 0.0 ==> v.fairValuePerShare == 0.0
    ensures v.enterpriseValue != 0.0 ==> v.terminalWeightPct * v.enterpriseValue == pvTerminal * 100.0
    ensures v.enterpriseValue == 0.0 ==> v.terminalWeightPct == 0.0
  {
    var ev := totalPvFcf + pvTerminal;
    var fvPerShare := if shares != 0.0 then ev / shares else 0.0;
    var terminalWeight := if ev != 0.0 then pvTerminal / ev * 100.0 else 0.0;
    Valuation(phaseSubtotals, totalPvFcf, finalFcf, terminalValue, pvTerminal, ev, fvPerShare, terminalWeight)
  }

  /** The valuation of one run, or the reason it fails. The terminal-growth
      check comes before anything else. */
  function Valuate(a: Assumptions, phases: seq<Phase>): (res: Result<Valuation, DcfError>)
    ensures a.terminalGrowthPct >= a.interestPct ==> res == Err(TerminalGrowthNotBelowWacc)
    ensures res.Ok? <==> a.terminalGrowthPct < a.interestPct && ValidPhases(phases) &&
                         Horizon(phases) > 0 && Discountable(a.interestPct)
  {
    if a.terminalGrowthPct >= a.interestPct then Err(TerminalGrowthNotBelowWacc)
    else if !ValidPhases(phases) then Err(InvalidPhases)
    else if Horizon(phases) == 0 then Err(NoProjectedYears)
    else if !Discountable(a.interestPct) then Err(DcfError.DivisionByZero)
    else
      var n := Horizon(phases);
      var finalFcf := ProjectedYear(a, phases, n).fcf;
      var terminalValue := GordonTerminalValue(finalFcf, a.terminalGrowthPct, a.interestPct);
      var pvTerminal := PresentTerminalValue(terminalValue, a.interestPct, n);
      Ok(Aggregate(PhaseSubtotals(a, phases), PvSum(a, phases, 1, n), finalFcf,
                   terminalValue, pvTerminal, a.shares))
  }

  /** A successful run's fair value per share is the enterprise value per share,
      or 0 when there are no shares; its terminal weight is the percentage of the
      enterprise value that the discounted terminal value makes up, or 0 when the
      enterprise value is 0. */
  lemma ValuationPerShare(a: Assumptions, phases: seq<Phase>)
    requires a.terminalGrowthPct < a.interestPct && ValidPhases(phases)
    requires Horizon(phases) > 0 && Discountable(a.interestPct)
    ensures var v := Valuate(a, phases).value;
      && (a.shares != 0.0 ==> v.fairValuePerShare * a.shares == v.enterpriseValue)
      && (a.shares == 0.0 ==> v.fairValuePerShare == 0.0)
      && (v.enterpriseValue != 0.0 ==> v.terminalWeightPct * v.enterpriseValue == 100.0 * v.pvTerminal)
      && (v.enterpriseValue == 0.0 ==> v.terminalWeightPct == 0.0)
  {
  }

  /** A successful run's total is the present value of years 1..N, and its
      phase subtotals are each phase's present value and add up to the total. */
  lemma ValuationTotals(a: Assumptions, phases: seq<Phase>)
    requires a.terminalGrowthPct < a.interestPct && ValidPhases(phases)
    requires Horizon(phases) > 0 && Discountable(a.interestPct)
    ensures var v := Valuate(a, phases).value;
      && v.totalPvFcf == PvSum(a, phases, 1, Horizon(phases))
      && |v.phaseSubtotals| == |phases|
      && (forall q :: 0 <= q < |phases| ==>
            v.phaseSubtotals[q] == PvSum(a, phases, phases[q].startYear, phases[q].endYear))
      && Sum(v.phaseSubtotals) == v.totalPvFcf
  {
    PhaseSubtotalsAddUp(a, phases);
  }

  /** A successful run's terminal value comes from year N's free cash flow by the
      perpetuity formula, is discounted over N years, and is added to the total
      present value to give the enterprise value. */
  lemma ValuationTerminal(a: Assumptions, phases: seq<Phase>)
    requires a.terminalGrowthPct < a.interestPct && ValidPhases(phases)
    requires Horizon(phases) > 0 && Discountable(a.interestPct)
    ensures var v := Valuate(a, phases).value; var n := Horizon(phases);
      && v.finalFcf == ProjectedYear(a, phases, n).fcf
      && v.terminalValue * TerminalDenominator(a.terminalGrowthPct, a.interestPct)
         == v.finalFcf * (1.0 + a.terminalGrowthPct / 100.0)
      && v.pvTerminal * DiscountFactor(a.interestPct, n) == v.terminalValue
      && v.enterpriseValue == v.totalPvFcf + v.pvTerminal
  {
  }

  /** A successful run's enterprise value in terms of the projection: the present
      value of years 1..N plus the discounted terminal value of year N's cash flow. */
  lemma ValuationEnterpriseValue(a: Assumptions, phases: seq<Phase>)
    requires a.terminalGrowthPct < a.interestPct && ValidPhases(phases)
    requires Horizon(phases) > 0 && Discountable(a.interestPct)
    ensures var n := Horizon(phases);
      Valuate(a, phases).value.enterpriseValue
      == PvSum(a, phases, 1, n)
         + PresentTerminalValue(GordonTerminalValue(ProjectedYear(a, phases, n).fcf, a.terminalGrowthPct,
                                                    a.interestPct), a.interestPct, n)
  {
  }

  /** A higher EBIT margin strictly raises the enterprise value: every year's free
      cash flow rises, and so does the terminal value built on the last one. This
      holds for a positive base revenue, growth rates above -100 percent, a
      discount rate above -100 percent, a terminal growth rate between -100
      percent and the discount rate, and a tax rate below 100 percent. */
  lemma EnterpriseValueIncreasesWithMargin(a: Assumptions, phases: seq<Phase>, higherMarginPct: real)
    requires ValidPhases(phases) && Horizon(phases) > 0
    requires a.interestPct > -100.0 && -100.0 < a.terminalGrowthPct < a.interestPct
    requires a.baseRevenue > 0.0 && RatesAboveMinus100(phases)
    requires a.taxRatePct < 100.0 && a.ebitMarginPct < higherMarginPct
    ensures var b := a.(ebitMarginPct := higherMarginPct);
      && Valuate(a, phases).Ok? && Valuate(b, phases).Ok?
      && Valuate(a, phases).value.enterpriseValue < Valuate(b, phases).value.enterpriseValue
  {
    var b := a.(ebitMarginPct := higherMarginPct);
    var n := Horizon(phases);
    ValuationEnterpriseValue(a, phases);
    ValuationEnterpriseValue(b, phases);
    PvSumIncreasesWithMargin(a, phases, higherMarginPct, 1, n);
    RevenuePositive(a.baseRevenue, phases, n);
    FcfIncreasesWithMargin(a, n, Revenue(a.baseRevenue, phases, n), higherMarginPct);
    PresentTerminalValueIncreasesWithFcf(ProjectedYear(a, phases, n).fcf, ProjectedYear(b, phases, n).fcf,
                                         a.terminalGrowthPct, a.interestPct, n);
  }

  /** With the same premises and a positive share count, the fair value per share
      rises with the margin too. */
  lemma FairValueIncreasesWithMargin(a: Assumptions, phases: seq<Phase>, higherMarginPct: real)
    requires ValidPhases(phases) && Horizon(phases) > 0
    requires a.interestPct > -100.0 && -100.0 < a.terminalGrowthPct < a.interestPct
    requires a.baseRevenue > 0.0 && RatesAboveMinus100(phases)
    requires a.taxRatePct < 100.0 && a.ebitMarginPct < higherMarginPct && a.shares > 0.0
    ensures Valuate(a, phases).value.fairValuePerShare
            < Valuate(a.(ebitMarginPct := higherMarginPct), phases).value.fairValuePerShare
  {
    var b := a.(ebitMarginPct := higherMarginPct);
    EnterpriseValueIncreasesWithMargin(a, phases, higherMarginPct);
    var va, vb := Valuate(a, phases).value, Valuate(b, phases).value;
    assert va.fairValuePerShare == va.enterpriseValue / a.shares;
    assert vb.fairValuePerShare == vb.enterpriseValue / a.shares;
    QuotientIncreases(va.enterpriseValue, vb.enterpriseValue, a.shares);
  }

  /** The valuation, computed year by year. */
  method CalculateDcf(a: Assumptions, phases: seq<Phase>) returns (res: Result<Valuation, DcfError>)
    ensures res == Valuate(a, phases)
  {
    if a.terminalGrowthPct >= a.interestPct {
      return Err(TerminalGrowthNotBelowWacc);
    }
    if !ValidPhases(phases) {
      return Err(InvalidPhases);
    }
    var n := Horizon(phases);
    if n == 0 {
      return Err(NoProjectedYears);
    }
    if !Discountable(a.interestPct) {
      return Err(DcfError.DivisionByZero);
    }

    var revenue := a.baseRevenue;
    var totalPvFcf := 0.0;
    var subtotals := seq(|phases|, _ => 0.0);
    var fcf := 0.0;
    var p := 0;          // the phase of the current year
    var year := 1;
    SubtotalsThroughNone(a, phases);
    while year <= n
      invariant 1 <= year <= n + 1 && 0 <= p < |phases|
      invariant phases[p].startYear <= year
      invariant revenue == Revenue(a.baseRevenue, phases, year - 1)
      invariant totalPvFcf == PvSum(a, phases, 1, year - 1)
      invariant year > 1 ==> fcf == ProjectedYear(a, phases, year - 1).fcf
      invariant subtotals == SubtotalsThrough(a, phases, year - 1)
    {
      // Move past the phases that end before this year (including empty ones).
      while phases[p].endYear < year
        invariant 0 <= p < |phases| && phases[p].startYear <= year
        decreases |phases| - p
      {
        p := p + 1;
      }
      GrowthPctOfPhase(phases, p, year);
      revenue := Compound(revenue, phases[p].growthPct);
      var row := YearFigures(a, year, revenue);
      assert row == ProjectedYear(a, phases, year);
      totalPvFcf := totalPvFcf + row.pvFcf;
      SubtotalsThroughStep(a, phases, p, year);
      subtotals := subtotals[p := subtotals[p] + row.pvFcf];
      fcf := row.fcf;
      year := year + 1;
    }
    SubtotalsThroughHorizon(a, phases);

    var terminalValue := GordonTerminalValue(fcf, a.terminalGrowthPct, a.interestPct);
    var pvTerminal := PresentTerminalValue(terminalValue, a.interestPct, n);
    res := Ok(Aggregate(subtotals, totalPvFcf, fcf, terminalValue, pvTerminal, a.shares));
  }


  // ---------------------------------------------------------------------
  // The two-phase split of the source: years 1..x_years grow at one rate,
  // the remaining years up to y_years at another.

  /** The phase list of a two-phase run. A first phase longer than the horizon
      is cut at the horizon (the second phase is then empty); a non-positive
      `xYears` leaves the first phase empty. */
  function TwoPhaseSplit(xYears: int, yYears: int, growthX: real, growthY: real): (phases: seq<Phase>)
    ensures |phases| == 2 && ValidPhases(phases)
    ensures Horizon(phases) == if yYears > 0 then yYears else 0
  {
    var n: nat := if yYears > 0 then yYears else 0;
    var split: nat := if xYears <= 0 then 0 else if xYears >= n then n else xYears;
    [Phase(1, split, growthX), Phase(split + 1, n, growthY)]
  }

  /** Each projected year of the split grows at `growthX` exactly when it is within
      the first `xYears`, and its present value then goes to the first subtotal;
      otherwise at `growthY`, into the second. */
  lemma TwoPhaseSplitRoutesYears(xYears: int, yYears: int, growthX: real, growthY: real, year: int)
    requires 1 <= year <= yYears
    ensures var phases := TwoPhaseSplit(xYears, yYears, growthX, growthY);
      && GrowthPctAt(phases, year) == (if year <= xYears then growthX else growthY)
      && (year <= xYears <==> phases[0].startYear <= year <= phases[0].endYear)
      && (year > xYears <==> phases[1].startYear <= year <= phases[1].endYear)
  {
  }

  /** The five figures the source's two-phase calculation returns. */
  datatype DcfSummary = DcfSummary(
    fairValuePerShare: real,
    terminalWeightPct: real,
    phase1Pv: real,
    phase2Pv: real,
    pvTerminal: real)

  /** The source's entry point: a two-phase run from loose arguments. */
  method CalculateDcfTwoPhase(baseRevenue: real, ebitMargin: real, depreciationPct: real,
                              capexPct: real, interestPct: real, wcChangePct: real,
                              taxRate: real, shares: real, xYears: int, yYears: int,
                              growthRateX: real, growthRateY: real, terminalGrowth: real)
    returns (res: Result<DcfSummary, DcfError>)
    ensures terminalGrowth >= interestPct ==> res == Err(TerminalGrowthNotBelowWacc)
    ensures yYears <= 0 && terminalGrowth < interestPct ==> res == Err(NoProjectedYears)
    ensures
      var a := Assumptions(baseRevenue, ebitMargin, depreciationPct, capexPct, interestPct,
                           wcChangePct, taxRate, shares, terminalGrowth);
      var phases := TwoPhaseSplit(xYears, yYears, growthRateX, growthRateY);
      var full := Valuate(a, phases);
      && (res.Ok? <==> full.Ok?)
      && (res.Ok? ==>
            && res.value.fairValuePerShare == full.value.fairValuePerShare
            && res.value.terminalWeightPct == full.value.terminalWeightPct
            && res.value.phase1Pv == full.value.phaseSubtotals[0]
            && res.value.phase2Pv == full.value.phaseSubtotals[1]
            && res.value.pvTerminal == full.value.pvTerminal)
      && (res.Err? ==> full.Err? && res.error == full.error)
  {
    var a := Assumptions(baseRevenue, ebitMargin, depreciationPct, capexPct, interestPct,
                         wcChangePct, taxRate, shares, terminalGrowth);
    var full := CalculateDcf(a, TwoPhaseSplit(xYears, yYears, growthRateX, growthRateY));
    match full
    case Err(e) =>
      res := Err(e);
    case Ok(v) =>
      res := Ok(DcfSummary(v.fairValuePerShare, v.terminalWeightPct,
                           v.phaseSubtotals[0], v.phaseSubtotals[1], v.pvTerminal));
  }

  /** The two subtotals of a two-phase run add up to the total present value. */
  lemma TwoPhaseSubtotalsAddUp(a: Assumptions, xYears: int, yYears: int, growthX: real, growthY: real)
    requires Valuate(a, TwoPhaseSplit(xYears, yYears, growthX, growthY)).Ok?
    ensures var v := Valuate(a, TwoPhaseSplit(xYears, yYears, growthX, growthY)).value;
      v.phaseSubtotals[0] + v.phaseSubtotals[1] == v.totalPvFcf
  {
    var phases := TwoPhaseSplit(xYears, yYears, growthX, growthY);
    var v := Valuate(a, phases).value;
    ValuationTotals(a, phases);
    var s := v.phaseSubtotals;
    assert |s| == 2;
    assert s[..1][..0] == [] && s[..2][..1] == s[..1] && s[..2] == s;
    assert Sum(s[..1]) == s[0];
    assert Sum(s) == Sum(s[..1]) + s[1];
  }

  // ---------------------------------------------------------------------
  // Revenue as the source's loop literally computes it: in a year after the
  // first phase it multiplies by a second factor built from `growth_6`, a name
  // defined nowhere, so the year raises NameError (None here). The preceding
  // multiplication by `1 + growth_rate_y/100` has no observable effect, since
  // the revenue it produces is lost when the next line raises, so the second
  // rate is not a parameter.

  function AsWrittenRevenue(baseRevenue: real, xYears: int, growthX: real, year: nat)
    : (r: Option<real>)
    ensures r.Some? <==> year == 0 || year <= xYears
  {
    if year == 0 then Some(baseRevenue)
    else
      var prev := AsWrittenRevenue(baseRevenue, xYears, growthX, year - 1);
      if prev.None? || year > xYears then None
      else Some(Compound(prev.value, growthX))
  }

  /** Within the first phase the literal loop agrees with the corrected model, so
      the defect shows only in the second phase. */
  lemma {:induction false} AsWrittenAgreesInFirstPhase(baseRevenue: real, xYears: int, yYears: int,
                                                       growthX: real, growthY: real, year: nat)
    requires year <= xYears && year <= yYears
    ensures AsWrittenRevenue(baseRevenue, xYears, growthX, year)
            == Some(Revenue(baseRevenue, TwoPhaseSplit(xYears, yYears, growthX, growthY), year))
  {
    if year > 0 {
      var phases := TwoPhaseSplit(xYears, yYears, growthX, growthY);
      AsWrittenAgreesInFirstPhase(baseRevenue, xYears, yYears, growthX, growthY, year - 1);
      TwoPhaseSplitRoutesYears(xYears, yYears, growthX, growthY, year);
    }
  }

  /** A concrete run: 5 high-growth years out of 10 fails at year 6 as written,
      while the corrected model values it. */
  lemma AsWrittenCounterexample()
    ensures AsWrittenRevenue(1000.0, 5, 10.0, 6).None?
    ensures Valuate(Assumptions(1000.0, 20.0, 5.0, 4.0, 10.0, 2.0, 25.0, 100.0, 4.0),
                    TwoPhaseSplit(5, 10, 10.0, 5.0)).Ok?
  {
  }

  /** The first year of a fifteen-year run (10 percent growth for five years,
      then 5 percent): revenue 1100, EBIT 220, tax 55, free cash flow 154 and,
      at a 10 percent discount rate, a present value of 140. */
  lemma YearOneScenario()
    ensures var a := Assumptions(1000.0, 20.0, 5.0, 4.0, 10.0, 2.0, 25.0, 100.0, 4.0);
      var row := ProjectedYear(a, [Phase(1, 5, 10.0), Phase(6, 15, 5.0)], 1);
      && row.revenue == 1100.0 && row.ebit == 220.0 && row.tax == 55.0
      && row.fcf == 154.0 && row.pvFcf == 140.0
  {
    var a := Assumptions(1000.0, 20.0, 5.0, 4.0, 10.0, 2.0, 25.0, 100.0, 4.0);
    var phases := [Phase(1, 5, 10.0), Phase(6, 15, 5.0)];
    assert Revenue(a.baseRevenue, phases, 1) == 1100.0;
    assert DiscountFactor(a.interestPct, 1) == 1.1;
  }
}
