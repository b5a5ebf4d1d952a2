/**
  * The Gordon-growth (perpetuity) terminal value, its present value, and the
  * straight-line aggregation of a projected cash-flow table into enterprise
  * value, equity value and fair value per share, as computed inline after the
  * table has been produced.
  */
module TerminalValue {
  import opened Wrappers
  import opened Discounting
  import opened Projection

  /** The terminal value is discounted over at most this many years. */
  const MaxTerminalHorizon: nat := 20

  /** The denominator `r/100 - g/100` of the perpetuity formula. */
  function TerminalDenominator(terminalGrowthPct: real, interestPct: real): (d: real)
    ensures d > 0.0 <==> terminalGrowthPct < interestPct
    ensures d == 0.0 <==> terminalGrowthPct == interestPct
  {
    interestPct / 100.0 - terminalGrowthPct / 100.0
  }

  /** Value at the horizon of the final free cash flow growing forever at `g`:
      `fcf * (1 + g/100) / (r/100 - g/100)`. */
  function GordonTerminalValue(finalFcf: real, terminalGrowthPct: real, interestPct: real): (tv: real)
    requires terminalGrowthPct != interestPct
    ensures tv * TerminalDenominator(terminalGrowthPct, interestPct) == finalFcf * (1.0 + terminalGrowthPct / 100.0)
  {
    (finalFcf * (1.0 + terminalGrowthPct / 100.0)) / TerminalDenominator(terminalGrowthPct, interestPct)
  }

  /** Below the discount rate, a positive final cash flow whose growth stays above
      -100 percent has a positive terminal value. */
  lemma TerminalValuePositive(finalFcf: real, terminalGrowthPct: real, interestPct: real)
    requires finalFcf > 0.0 && -100.0 < terminalGrowthPct < interestPct
    ensures GordonTerminalValue(finalFcf, terminalGrowthPct, interestPct) > 0.0
  {
    var d := TerminalDenominator(terminalGrowthPct, interestPct);
    var tv := GordonTerminalValue(finalFcf, terminalGrowthPct, interestPct);
    MulPositive(finalFcf, 1.0 + terminalGrowthPct / 100.0);
    FactorPositive(tv, d);
  }

  /** Below the discount rate, with growth above -100 percent, a larger final
      cash flow gives a strictly larger terminal value. */
  lemma TerminalValueIncreasesWithFcf(fcf1: real, fcf2: real, terminalGrowthPct: real, interestPct: real)
    requires fcf1 < fcf2 && -100.0 < terminalGrowthPct < interestPct
    ensures GordonTerminalValue(fcf1, terminalGrowthPct, interestPct)
            < GordonTerminalValue(fcf2, terminalGrowthPct, interestPct)
  {
    var d := TerminalDenominator(terminalGrowthPct, interestPct);
    var k := 1.0 + terminalGrowthPct / 100.0;
    var tv1 := GordonTerminalValue(fcf1, terminalGrowthPct, interestPct);
    var tv2 := GordonTerminalValue(fcf2, terminalGrowthPct, interestPct);
    MulPositive(fcf2 - fcf1, k);
    assert (tv2 - tv1) * d == (fcf2 - fcf1) * k;
    FactorPositive(tv2 - tv1, d);
  }

  /** Holding the final cash flow (positive) and the discount rate (above -100
      percent) fixed, a higher terminal growth rate below the discount rate
      gives a strictly higher terminal value. */
  lemma TerminalValueIncreasesWithGrowth(finalFcf: real, g1: real, g2: real, interestPct: real)
    requires finalFcf > 0.0 && interestPct > -100.0
    requires g1 < g2 < interestPct
    ensures GordonTerminalValue(finalFcf, g1, interestPct) < GordonTerminalValue(finalFcf, g2, interestPct)
  {
    var r := interestPct;
    var d1, d2 := TerminalDenominator(g1, r), TerminalDenominator(g2, r);
    var n1, n2 := finalFcf * (1.0 + g1 / 100.0), finalFcf * (1.0 + g2 / 100.0);
    var tv1, tv2 := GordonTerminalValue(finalFcf, g1, r), GordonTerminalValue(finalFcf, g2, r);
    assert 0.0 < d2 < d1;
    // n1 * d2 < n2 * d1 reduces to (g1 - g2) * (r + 100) < 0.
    assert n2 * d1 - n1 * d2 == finalFcf * (g2 - g1) * (100.0 + r) / 10000.0;
    MulPositive(g2 - g1, 100.0 + r);
    MulPositive(finalFcf, (g2 - g1) * (100.0 + r));
    assert n1 * d2 < n2 * d1;
    assert tv1 == n1 / d1 && tv2 == n2 / d2;
    assert tv1 * d1 * d2 == n1 * d2;
    assert tv2 * d1 * d2 == n2 * d1;
    assert (tv2 - tv1) * (d1 * d2) > 0.0;
    assert d1 * d2 > 0.0;
  }

  /** The terminal value discounted back over `horizon` years. */
  function PresentTerminalValue(terminalValue: real, interestPct: real, horizon: nat): (pv: real)
    requires DiscountFactor(interestPct, horizon) != 0.0
    ensures pv * DiscountFactor(interestPct, horizon) == terminalValue
  {
    PresentValue(terminalValue, interestPct, horizon)
  }

  /** The same order survives discounting the terminal value back over the horizon. */
  lemma PresentTerminalValueIncreasesWithFcf(fcf1: real, fcf2: real, terminalGrowthPct: real,
                                             interestPct: real, horizon: nat)
    requires fcf1 < fcf2 && -100.0 < terminalGrowthPct < interestPct
    ensures PresentTerminalValue(GordonTerminalValue(fcf1, terminalGrowthPct, interestPct), interestPct, horizon)
            < PresentTerminalValue(GordonTerminalValue(fcf2, terminalGrowthPct, interestPct), interestPct, horizon)
  {
    TerminalValueIncreasesWithFcf(fcf1, fcf2, terminalGrowthPct, interestPct);
    PresentValueIncreases(GordonTerminalValue(fcf1, terminalGrowthPct, interestPct),
                          GordonTerminalValue(fcf2, terminalGrowthPct, interestPct), interestPct, horizon);
  }

  // ---------------------------------------------------------------------
  // Aggregation of a finished cash-flow table

  datatype TableValuation = TableValuation(
    finalFcf: real,
    terminalValue: real,
    pvTerminal: real,
    totalPvFcf: real,
    enterpriseValue: real,
    equityValue: real,
    fairValuePerShare: real)

  datatype TableError =
    | EmptyCashFlowTable   // the last row of an empty table does not exist
    | DivisionByZero

  /** Sum of the last column ("PV of FCF") of the rows, left to right. */
  function PvColumnTotal(rows: seq<YearRow>): (total: real)
    ensures |rows| == 0 ==> total == 0.0
    ensures (forall i :: 0 <= i < |rows| ==> rows[i].pvFcf >= 0.0) ==> total >= 0.0
  {
    if |rows| == 0 then 0.0
    else
      var cols := rows[|rows| - 1].Columns();
      PvColumnTotal(rows[..|rows| - 1]) + cols[|cols| - 1]
  }

  /** The horizon the terminal value is discounted over. */
  function TerminalHorizon(forecastYears: nat): (h: nat)
    ensures h <= forecastYears && h <= MaxTerminalHorizon
    ensures h == forecastYears || h == MaxTerminalHorizon
  {
    if forecastYears < MaxTerminalHorizon then forecastYears else MaxTerminalHorizon
  }

  /** Valuation from a cash-flow table: terminal value from the table's last
      free cash flow, total present value of every row but the first, equity
      value equal to enterprise value (no net debt), and fair value per share. */
  function ValueFromTable(rows: seq<YearRow>, terminalGrowthPct: real, interestPct: real,
                          forecastYears: nat, shares: real): (res: Result<TableValuation, TableError>)
    ensures |rows| == 0 ==> res == Err(EmptyCashFlowTable)
    ensures |rows| > 0 && (terminalGrowthPct == interestPct ||
                           DiscountFactor(interestPct, TerminalHorizon(forecastYears)) == 0.0)
            ==> res == Err(DivisionByZero)
    ensures res.Ok? <==> |rows| > 0 && terminalGrowthPct != interestPct &&
                         DiscountFactor(interestPct, TerminalHorizon(forecastYears)) != 0.0
    ensures res.Ok? ==>
      var v := res.value;
      && v.finalFcf == rows[|rows| - 1].fcf
      && v.terminalValue * TerminalDenominator(terminalGrowthPct, interestPct)
         == v.finalFcf * (1.0 + terminalGrowthPct / 100.0)
      && v.pvTerminal * DiscountFactor(interestPct, TerminalHorizon(forecastYears)) == v.terminalValue
      && v.totalPvFcf == PvColumnTotal(rows[1..])
      && v.enterpriseValue == v.totalPvFcf + v.pvTerminal
      && v.equityValue == v.enterpriseValue
      && (shares != 0.0 ==> v.fairValuePerShare * shares == v.equityValue)
      && (shares == 0.0 ==> v.fairValuePerShare == 0.0)
  {
    if |rows| == 0 then Err(EmptyCashFlowTable)
    else
      var last := rows[|rows| - 1].Columns();
      var finalFcf := last[|last| - 2];
      var horizon := TerminalHorizon(forecastYears);
      if terminalGrowthPct == interestPct then Err(DivisionByZero)
      else
        var terminalValue := GordonTerminalValue(finalFcf, terminalGrowthPct, interestPct);
        if DiscountFactor(interestPct, horizon) == 0.0 then Err(DivisionByZero)
        else
          var pvTerminal := PresentTerminalValue(terminalValue, interestPct, horizon);
          var totalPvFcf := PvColumnTotal(rows[1..]);
          var enterpriseValue := totalPvFcf + pvTerminal;
          var equityValue := enterpriseValue;
          var fairValuePerShare := if shares != 0.0 then equityValue / shares else 0.0;
          Ok(TableValuation(finalFcf, terminalValue, pvTerminal, totalPvFcf,
                            enterpriseValue, equityValue, fairValuePerShare))
  }

  /** Over the rows of years 1..n, the column total from row `lo` on is the
      present value of years lo+1..n. */
  lemma {:induction false} PvColumnTotalOfProjection(a: Assumptions, phases: seq<Phase>, n: nat, lo: nat)
    requires Discountable(a.interestPct) && lo <= n
    ensures PvColumnTotal(ProjectedRows(a, phases, n)[lo..]) == PvSum(a, phases, lo + 1, n)
  {
    var rows := ProjectedRows(a, phases, n);
    if lo < n {
      var shorter := ProjectedRows(a, phases, n - 1);
      PvColumnTotalOfProjection(a, phases, n - 1, lo);
      assert rows[lo..][..|rows[lo..]| - 1] == shorter[lo..];
      assert rows[lo..][|rows[lo..]| - 1] == ProjectedYear(a, phases, n);
    } else {
      assert rows[lo..] == [];
    }
  }

  /** Applied to the projected rows of years 1..n, the table total leaves out the
      first year: it is the horizon's present value less year 1's. */
  lemma TableTotalSkipsFirstYear(a: Assumptions, phases: seq<Phase>, n: nat)
    requires Discountable(a.interestPct) && n >= 1
    ensures PvColumnTotal(ProjectedRows(a, phases, n)[1..])
            == PvSum(a, phases, 1, n) - ProjectedYear(a, phases, 1).pvFcf
  {
    PvColumnTotalOfProjection(a, phases, n, 1);
    PvSumSplit(a, phases, 1, 1, n);
    assert PvSum(a, phases, 1, 1) == ProjectedYear(a, phases, 1).pvFcf;
  }
}
