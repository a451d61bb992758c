/** The market scenarios of src/fm_toolkit/scenarios.py: single scenario
    records applied to a curve or a spot, and the eight-row PV/PnL table of
    an FX forward priced on two zero curves. Python's `:g` formatting of a
    number is library code, so it is a parameter `g`. */
module FmScenarios {
  import opened Results
  import opened Exponential
  import opened FmCurves
  import opened ForwardPayoff
  import opened FmFxForwards

  /** The `MarketScenario` record; both shocks default to zero. */
  datatype MarketScenario = MarketScenario(name: string, parallelRateBumpBp: real := 0.0, fxSpotShockPct: real := 0.0)

  /** `apply_curve_scenario`: the curve shifted by the scenario's bump. */
  function ApplyCurveScenario(c: ZeroCurve, s: MarketScenario): (r: ZeroCurve)
    requires Valid(c)
    ensures Valid(r) && r.times == c.times && |r.zeroRates| == |c.zeroRates|
    ensures forall i :: 0 <= i < |c.zeroRates| ==> r.zeroRates[i] == c.zeroRates[i] + s.parallelRateBumpBp * 0.0001
  {
    Shifted(c, s.parallelRateBumpBp)
  }

  /** `apply_fx_scenario`: the spot scaled by one plus the shock, the shock
      being read as a fraction (0.01 is one percent). */
  function ApplyFxScenario(spot: real, s: MarketScenario): (r: real)
    ensures spot > 0.0 && s.fxSpotShockPct > -1.0 ==> r > 0.0
  {
    spot * (1.0 + s.fxSpotShockPct)
  }

  /** A scenario with the default shocks leaves the curve and the spot as
      they are. */
  lemma DefaultScenarioNeutral(c: ZeroCurve, spot: real, name: string)
    requires Valid(c)
    ensures ApplyCurveScenario(c, MarketScenario(name)) == c
    ensures ApplyFxScenario(spot, MarketScenario(name)) == spot
  {
    ShiftedZero(c);
  }

  /** The spot shock is proportional: the shocked spot moves by spot * shock
      and keeps its sign while the shock is above -100%. */
  lemma ApplyFxScenarioMoves(spot: real, s: MarketScenario)
    ensures ApplyFxScenario(spot, s) - spot == spot * s.fxSpotShockPct
    ensures spot > 0.0 && s.fxSpotShockPct > -1.0 ==> ApplyFxScenario(spot, s) > 0.0
  {
  }

  /** Applying a curve scenario and then its opposite restores the curve. */
  lemma ApplyCurveScenarioRoundTrip(c: ZeroCurve, name: string, bumpBp: real)
    requires Valid(c)
    ensures ApplyCurveScenario(ApplyCurveScenario(c, MarketScenario(name, bumpBp)), MarketScenario(name, -bumpBp)) == c
  {
    ShiftedRoundTrip(c, bumpBp);
  }

  /** One entry of `scenario_defs`: a name, the spot shock in percent and
      the two curve shifts in basis points. */
  datatype ScenarioDef = ScenarioDef(name: string, spotShockPct: real, domesticBps: real, foreignBps: real)

  /** One row of the returned table. */
  datatype ScenarioRow = ScenarioRow(name: string, spotShockPct: real, domesticBps: real, foreignBps: real,
                                     pv: real, pnl: real)

  /** The keyword arguments that describe the trade and its market. */
  datatype Inputs = Inputs(notionalBase: real, strike: real, spot: real, maturityYears: real,
                           domestic: ZeroCurve, foreign: ZeroCurve)

  predicate ValidInputs(x: Inputs) {
    Valid(x.domestic) && Valid(x.foreign)
  }

  function SpotLabel(sign: string, spotShockPct: real, g: real -> string): string {
    "Spot " + sign + g(spotShockPct) + "%"
  }

  function RateLabel(leg: string, sign: string, rateShockBps: real, g: real -> string): string {
    leg + " " + sign + g(rateShockBps) + "bp"
  }

  /** `scenario_defs`, in its fixed order. */
  function ScenarioDefs(spotShockPct: real, rateShockBps: real, g: real -> string): (defs: seq<ScenarioDef>)
    ensures |defs| == 8
  {
    [ ScenarioDef(SpotLabel("-", spotShockPct, g), -spotShockPct, 0.0, 0.0),
      ScenarioDef(SpotLabel("+", spotShockPct, g), spotShockPct, 0.0, 0.0),
      ScenarioDef(RateLabel("Domestic", "+", rateShockBps, g), 0.0, rateShockBps, 0.0),
      ScenarioDef(RateLabel("Domestic", "-", rateShockBps, g), 0.0, -rateShockBps, 0.0),
      ScenarioDef(RateLabel("Foreign", "+", rateShockBps, g), 0.0, 0.0, rateShockBps),
      ScenarioDef(RateLabel("Foreign", "-", rateShockBps, g), 0.0, 0.0, -rateShockBps),
      ScenarioDef(SpotLabel("+", spotShockPct, g) + " & " + RateLabel("Domestic", "+", rateShockBps, g),
                  spotShockPct, rateShockBps, 0.0),
      ScenarioDef(SpotLabel("-", spotShockPct, g) + " & " + RateLabel("Domestic", "-", rateShockBps, g),
                  -spotShockPct, -rateShockBps, 0.0) ]
  }

  /** Each scenario shocks the unshocked spot by a percentage. */
  function ShockedSpot(spot: real, spotShockPct: real): real {
    spot * (1.0 + spotShockPct / 100.0)
  }

  /** The PV of the trade under one scenario, every shock taken from the
      base market. */
  function ScenarioPv(exp: real -> real, x: Inputs, d: ScenarioDef): Result<real>
    requires IsExp(exp) && ValidInputs(x)
  {
    PriceFxForward(exp, x.notionalBase, x.strike, ShockedSpot(x.spot, d.spotShockPct), None, None,
                   Some(x.maturityYears), Some(Shifted(x.domestic, d.domesticBps)), Some(Shifted(x.foreign, d.foreignBps)))
  }

  /** The PV of the trade on the base market. */
  function BasePv(exp: real -> real, x: Inputs): Result<real>
    requires IsExp(exp) && ValidInputs(x)
  {
    PriceFxForward(exp, x.notionalBase, x.strike, x.spot, None, None, Some(x.maturityYears), Some(x.domestic), Some(x.foreign))
  }

  /** The PV of every scenario of `defs`, in order. */
  function Prices(exp: real -> real, x: Inputs, defs: seq<ScenarioDef>): (pvs: seq<Result<real>>)
    requires IsExp(exp) && ValidInputs(x)
    ensures |pvs| == |defs|
  {
    seq(|defs|, i requires 0 <= i < |defs| => ScenarioPv(exp, x, defs[i]))
  }

  lemma PriceAt(exp: real -> real, x: Inputs, defs: seq<ScenarioDef>, i: nat)
    requires IsExp(exp) && ValidInputs(x) && i < |defs|
    ensures Prices(exp, x, defs)[i] == ScenarioPv(exp, x, defs[i])
  {
  }

  /** The rows of `defs`, in order, each with the price in `pvs` at the same
      position and its PnL against `basePv`; the first failing price is the
      result. */
  function Rows(pvs: seq<Result<real>>, defs: seq<ScenarioDef>, basePv: real): (r: Result<seq<ScenarioRow>>)
    requires |pvs| == |defs|
    ensures r.Ok? ==> |r.value| == |defs|
    decreases |defs|
  {
    if defs == [] then Ok([])
    else
      var k := |defs| - 1;
      var previous := Rows(pvs[..k], defs[..k], basePv);
      var d := defs[k];
      if previous.Err? then previous
      else if pvs[k].Err? then Err(pvs[k].error)
      else Ok(previous.value + [ScenarioRow(d.name, d.spotShockPct, d.domesticBps, d.foreignBps,
                                            pvs[k].value, pvs[k].value - basePv)])
  }

  /** The table `fx_forward_scenarios` returns, or the error it raises: the
      base is priced first, then each scenario in order. */
  function ScenarioTable(exp: real -> real, x: Inputs, spotShockPct: real, rateShockBps: real, g: real -> string)
    : (r: Result<seq<ScenarioRow>>)
    requires IsExp(exp) && ValidInputs(x)
    ensures r.Ok? ==> |r.value| == 8
  {
    var base := BasePv(exp, x);
    var defs := ScenarioDefs(spotShockPct, rateShockBps, g);
    if base.Err? then Err(base.error)
    else Rows(Prices(exp, x, defs), defs, base.value)
  }

  /** `fx_forward_scenarios`: the base PV is priced once, then the rows of
      `scenario_defs` are built. */
  method FxForwardScenarios(exp: real -> real, x: Inputs, g: real -> string,
                            spotShockPct: real := 1.0, rateShockBps: real := 25.0)
    returns (r: Result<seq<ScenarioRow>>)
    requires IsExp(exp) && ValidInputs(x)
    ensures r == ScenarioTable(exp, x, spotShockPct, rateShockBps, g)
  {
    var base := PriceFxForward(exp, x.notionalBase, x.strike, x.spot, None, None, Some(x.maturityYears),
                               Some(x.domestic), Some(x.foreign));
    if base.Err? {
      return Err(base.error);
    }
    r := ScenarioRows(exp, x, ScenarioDefs(spotShockPct, rateShockBps, g), base.value);
  }

  /** The loop of `fx_forward_scenarios`: each definition shocks the spot
      and shifts both curves from the base market, prices the trade and
      appends a row; a pricing error stops the loop. */
  method ScenarioRows(exp: real -> real, x: Inputs, defs: seq<ScenarioDef>, basePv: real)
    returns (r: Result<seq<ScenarioRow>>)
    requires IsExp(exp) && ValidInputs(x)
    ensures r == Rows(Prices(exp, x, defs), defs, basePv)
  {
    ghost var pvs := Prices(exp, x, defs);
    var rows: seq<ScenarioRow> := [];
    for i := 0 to |defs|
      invariant Rows(pvs[..i], defs[..i], basePv) == Ok(rows)
    {
      var d := defs[i];
      var shockedSpot := ShockedSpot(x.spot, d.spotShockPct);
      var shockedDomestic := Shifted(x.domestic, d.domesticBps);
      var shockedForeign := Shifted(x.foreign, d.foreignBps);
      var pv := PriceFxForward(exp, x.notionalBase, x.strike, shockedSpot, None, None, Some(x.maturityYears),
                               Some(shockedDomestic), Some(shockedForeign));
      PriceAt(exp, x, defs, i);
      if pv.Err? {
        RowsStopAt(pvs, defs, basePv, i, rows);
        return Err(pv.error);
      }
      RowsExtend(pvs, defs, basePv, i, rows);
      rows := rows + [ScenarioRow(d.name, d.spotShockPct, d.domesticBps, d.foreignBps, pv.value, pv.value - basePv)];
    }
    RowsAll(pvs, defs, basePv);
    return Ok(rows);
  }

  /** The rows of one more definition extend those of the prefix. */
  lemma RowsStep(pvs: seq<Result<real>>, defs: seq<ScenarioDef>, basePv: real, i: nat)
    requires |pvs| == |defs| && i < |defs|
    ensures var previous := Rows(pvs[..i], defs[..i], basePv);
      var d := defs[i];
      Rows(pvs[..i + 1], defs[..i + 1], basePv)
        == if previous.Err? then previous
           else if pvs[i].Err? then Err(pvs[i].error)
           else Ok(previous.value + [ScenarioRow(d.name, d.spotShockPct, d.domesticBps, d.foreignBps,
                                                 pvs[i].value, pvs[i].value - basePv)])
  {
    assert pvs[..i + 1][..i] == pvs[..i];
    assert defs[..i + 1][..i] == defs[..i];
  }

  lemma RowsExtend(pvs: seq<Result<real>>, defs: seq<ScenarioDef>, basePv: real, i: nat, rows: seq<ScenarioRow>)
    requires |pvs| == |defs| && i < |defs| && pvs[i].Ok?
    requires Rows(pvs[..i], defs[..i], basePv) == Ok(rows)
    ensures var d := defs[i];
      Rows(pvs[..i + 1], defs[..i + 1], basePv)
        == Ok(rows + [ScenarioRow(d.name, d.spotShockPct, d.domesticBps, d.foreignBps, pvs[i].value, pvs[i].value - basePv)])
  {
    RowsStep(pvs, defs, basePv, i);
  }

  lemma RowsStopAt(pvs: seq<Result<real>>, defs: seq<ScenarioDef>, basePv: real, i: nat, rows: seq<ScenarioRow>)
    requires |pvs| == |defs| && i < |defs| && pvs[i].Err?
    requires Rows(pvs[..i], defs[..i], basePv) == Ok(rows)
    ensures Rows(pvs, defs, basePv) == Err(pvs[i].error)
  {
    RowsStep(pvs, defs, basePv, i);
    RowsErrorStays(pvs, defs, basePv, i + 1);
  }

  lemma RowsAll(pvs: seq<Result<real>>, defs: seq<ScenarioDef>, basePv: real)
    requires |pvs| == |defs|
    ensures Rows(pvs[..|defs|], defs[..|defs|], basePv) == Rows(pvs, defs, basePv)
  {
    assert pvs[..|defs|] == pvs && defs[..|defs|] == defs;
  }

  /** Once a prefix of the definitions fails, every longer prefix fails the
      same way. */
  lemma {:induction false} RowsErrorStays(pvs: seq<Result<real>>, defs: seq<ScenarioDef>, basePv: real, k: nat)
    requires |pvs| == |defs| && k <= |defs| && Rows(pvs[..k], defs[..k], basePv).Err?
    ensures Rows(pvs, defs, basePv) == Rows(pvs[..k], defs[..k], basePv)
    decreases |defs| - k
  {
    if k < |defs| {
      RowsStep(pvs, defs, basePv, k);
      RowsErrorStays(pvs, defs, basePv, k + 1);
    } else {
      assert pvs[..k] == pvs && defs[..k] == defs;
    }
  }

  /** The rows succeed exactly when every price does; then there is one row
      per definition, in order, carrying that definition's name and shocks,
      its PV, and its PV less the base PV. */
  lemma {:induction false} RowsSpec(pvs: seq<Result<real>>, defs: seq<ScenarioDef>, basePv: real)
    requires |pvs| == |defs|
    ensures var rows := Rows(pvs, defs, basePv);
      && (rows.Ok? <==> forall i :: 0 <= i < |defs| ==> pvs[i].Ok?)
      && (rows.Ok? ==>
            && |rows.value| == |defs|
            && forall i :: 0 <= i < |defs| ==>
                 rows.value[i] == ScenarioRow(defs[i].name, defs[i].spotShockPct, defs[i].domesticBps,
                                              defs[i].foreignBps, pvs[i].value, pvs[i].value - basePv))
    decreases |defs|
  {
    if defs != [] {
      var k := |defs| - 1;
      RowsSpec(pvs[..k], defs[..k], basePv);
    }
  }

  /** The rows fail with the error of the first price that fails. */
  lemma {:induction false} RowsFirstError(pvs: seq<Result<real>>, defs: seq<ScenarioDef>, basePv: real, k: nat)
    requires |pvs| == |defs| && k < |defs| && pvs[k].Err?
    requires forall i :: 0 <= i < k ==> pvs[i].Ok?
    ensures Rows(pvs, defs, basePv) == Err(pvs[k].error)
  {
    RowsSpec(pvs[..k], defs[..k], basePv);
    RowsStep(pvs, defs, basePv, k);
    RowsErrorStays(pvs, defs, basePv, k + 1);
  }

  /** The whole table: the base failing is the result; a scenario failing
      after the base priced is the result; otherwise the table has the eight
      rows of `scenario_defs` in order, each priced from the unshocked spot
      and curves and compared with the base PV. */
  lemma TableSpec(exp: real -> real, x: Inputs, spotShockPct: real, rateShockBps: real, g: real -> string)
    requires IsExp(exp) && ValidInputs(x)
    ensures var table := ScenarioTable(exp, x, spotShockPct, rateShockBps, g);
      var base := BasePv(exp, x);
      var defs := ScenarioDefs(spotShockPct, rateShockBps, g);
      && (base.Err? ==> table == Err(base.error))
      && (base.Ok? ==> (table.Ok? <==> forall i :: 0 <= i < 8 ==> ScenarioPv(exp, x, defs[i]).Ok?))
      && (table.Ok? ==>
            && base.Ok? && |table.value| == 8
            && forall i :: 0 <= i < 8 ==>
                 && table.value[i].name == defs[i].name
                 && table.value[i].spotShockPct == defs[i].spotShockPct
                 && table.value[i].domesticBps == defs[i].domesticBps
                 && table.value[i].foreignBps == defs[i].foreignBps
                 && table.value[i].pv == ScenarioPv(exp, x, defs[i]).value
                 && table.value[i].pnl == table.value[i].pv - base.value)
  {
    var base := BasePv(exp, x);
    var defs := ScenarioDefs(spotShockPct, rateShockBps, g);
    if base.Ok? {
      RowsSpec(Prices(exp, x, defs), defs, base.value);
    }
  }

  /** One row of a table that was produced. */
  lemma TableRow(exp: real -> real, x: Inputs, spotShockPct: real, rateShockBps: real, g: real -> string, i: nat)
    requires IsExp(exp) && ValidInputs(x) && i < 8
    requires ScenarioTable(exp, x, spotShockPct, rateShockBps, g).Ok?
    ensures var rows := ScenarioTable(exp, x, spotShockPct, rateShockBps, g).value;
      var d := ScenarioDefs(spotShockPct, rateShockBps, g)[i];
      && |rows| == 8 && BasePv(exp, x).Ok? && ScenarioPv(exp, x, d).Ok?
      && rows[i] == ScenarioRow(d.name, d.spotShockPct, d.domesticBps, d.foreignBps, ScenarioPv(exp, x, d).value,
                                ScenarioPv(exp, x, d).value - BasePv(exp, x).value)
  {
    TableSpec(exp, x, spotShockPct, rateShockBps, g);
  }

  /** After the base prices, the table fails with the error of the first
      scenario that fails. */
  lemma TableFirstError(exp: real -> real, x: Inputs, spotShockPct: real, rateShockBps: real, g: real -> string, k: nat)
    requires IsExp(exp) && ValidInputs(x) && BasePv(exp, x).Ok?
    requires var defs := ScenarioDefs(spotShockPct, rateShockBps, g);
      k < 8 && ScenarioPv(exp, x, defs[k]).Err? && forall i :: 0 <= i < k ==> ScenarioPv(exp, x, defs[i]).Ok?
    ensures ScenarioTable(exp, x, spotShockPct, rateShockBps, g)
      == Err(ScenarioPv(exp, x, ScenarioDefs(spotShockPct, rateShockBps, g)[k]).error)
  {
    var defs := ScenarioDefs(spotShockPct, rateShockBps, g);
    RowsFirstError(Prices(exp, x, defs), defs, BasePv(exp, x).value, k);
  }

  /** On curves given outright the pricer fails only on its input checks:
      notional, strike, maturity, then spot. */
  lemma PriceOnCurves(exp: real -> real, n: real, k: real, spot: real, t: real, d: ZeroCurve, f: ZeroCurve)
    requires IsExp(exp) && Valid(d) && Valid(f)
    ensures PriceFxForward(exp, n, k, spot, None, None, Some(t), Some(d), Some(f)).Ok?
      <==> n > 0.0 && k > 0.0 && t > 0.0 && spot > 0.0
  {
    if n > 0.0 && k > 0.0 && t > 0.0 {
      PriceValue(exp, n, k, spot, None, None, Some(t), Some(d), Some(f));
    }
  }

  /** The table is produced exactly when the trade's inputs are positive and
      the spot shock stays strictly within (-100%, 100%), so that both
      shocked spots are positive. */
  lemma TableExists(exp: real -> real, x: Inputs, spotShockPct: real, rateShockBps: real, g: real -> string)
    requires IsExp(exp) && ValidInputs(x)
    ensures ScenarioTable(exp, x, spotShockPct, rateShockBps, g).Ok? <==>
      && x.notionalBase > 0.0 && x.strike > 0.0 && x.maturityYears > 0.0 && x.spot > 0.0
      && -100.0 < spotShockPct < 100.0
  {
    PriceOnCurves(exp, x.notionalBase, x.strike, x.spot, x.maturityYears, x.domestic, x.foreign);
    TableSpec(exp, x, spotShockPct, rateShockBps, g);
    if BasePv(exp, x).Ok? {
      AllScenariosPrice(exp, x, spotShockPct, rateShockBps, g);
    }
  }

  /** On inputs the base accepts, every scenario prices exactly when the
      spot shock stays within (-100%, 100%). */
  lemma AllScenariosPrice(exp: real -> real, x: Inputs, spotShockPct: real, rateShockBps: real, g: real -> string)
    requires IsExp(exp) && ValidInputs(x)
    requires x.notionalBase > 0.0 && x.strike > 0.0 && x.maturityYears > 0.0 && x.spot > 0.0
    ensures var defs := ScenarioDefs(spotShockPct, rateShockBps, g);
      (forall i :: 0 <= i < 8 ==> ScenarioPv(exp, x, defs[i]).Ok?) <==> -100.0 < spotShockPct < 100.0
  {
    var defs := ScenarioDefs(spotShockPct, rateShockBps, g);
    forall i | 0 <= i < 8
      ensures ScenarioPv(exp, x, defs[i]).Ok? <==> ShockedSpot(x.spot, defs[i].spotShockPct) > 0.0
    {
      ScenarioPrices(exp, x, defs[i]);
    }
    ShocksPositive(x.spot, spotShockPct, rateShockBps, g);
  }

  /** Every shocked spot of the table is positive exactly when the spot
      shock stays within (-100%, 100%). */
  lemma ShocksPositive(spot: real, spotShockPct: real, rateShockBps: real, g: real -> string)
    requires spot > 0.0
    ensures var defs := ScenarioDefs(spotShockPct, rateShockBps, g);
      (forall i :: 0 <= i < 8 ==> ShockedSpot(spot, defs[i].spotShockPct) > 0.0) <==> -100.0 < spotShockPct < 100.0
  {
    var defs := ScenarioDefs(spotShockPct, rateShockBps, g);
    ShockedSpotPositive(spot, spotShockPct);
    ShockedSpotPositive(spot, -spotShockPct);
    ShockedSpotPositive(spot, 0.0);
    assert defs[0].spotShockPct == -spotShockPct && defs[1].spotShockPct == spotShockPct;
  }

  /** On inputs the base accepts, a scenario prices exactly when its shocked
      spot is positive. */
  lemma ScenarioPrices(exp: real -> real, x: Inputs, d: ScenarioDef)
    requires IsExp(exp) && ValidInputs(x)
    requires x.notionalBase > 0.0 && x.strike > 0.0 && x.maturityYears > 0.0
    ensures ScenarioPv(exp, x, d).Ok? <==> ShockedSpot(x.spot, d.spotShockPct) > 0.0
  {
    PriceOnCurves(exp, x.notionalBase, x.strike, ShockedSpot(x.spot, d.spotShockPct), x.maturityYears,
                  Shifted(x.domestic, d.domesticBps), Shifted(x.foreign, d.foreignBps));
  }

  lemma ShockedSpotPositive(spot: real, pct: real)
    requires spot > 0.0
    ensures ShockedSpot(spot, pct) > 0.0 <==> pct > -100.0
  {
    if pct > -100.0 {
      assert 1.0 + pct / 100.0 > 0.0;
    } else {
      assert 1.0 + pct / 100.0 <= 0.0;
    }
  }

  /** A scenario that shifts neither curve prices on the given curves. */
  lemma SpotOnlyPv(exp: real -> real, x: Inputs, d: ScenarioDef)
    requires IsExp(exp) && ValidInputs(x) && d.domesticBps == 0.0 && d.foreignBps == 0.0
    ensures ScenarioPv(exp, x, d) == PriceFxForward(exp, x.notionalBase, x.strike, ShockedSpot(x.spot, d.spotShockPct),
                                                    None, None, Some(x.maturityYears), Some(x.domestic), Some(x.foreign))
  {
    ShiftedZero(x.domestic);
    ShiftedZero(x.foreign);
  }

  /** The PV moves with the spot on fixed curves: a shock of `pct` percent
      changes it by N * spot * pct/100 * DF_foreign(T), whatever the strike. */
  lemma SpotStep(n: real, k: real, spot: real, pct: real, a: real, b: real)
    requires b > 0.0
    ensures ForwardPv(n, ShockedSpot(spot, pct) * a / b, k, b) - ForwardPv(n, spot * a / b, k, b)
      == SpotGain(n, spot, pct, a)
  {
    assert ShockedSpot(spot, pct) * a / b == spot * a / b + spot * (pct / 100.0) * a / b;
    PvForwardStep(n, spot * a / b, spot * (pct / 100.0) * a / b, k, b);
    assert n * (spot * (pct / 100.0) * a / b) * b == SpotGain(n, spot, pct, a);
  }

  /** The PnL of a spot-only shock on the given curves. */
  lemma SpotPnl(exp: real -> real, x: Inputs, pct: real)
    requires IsExp(exp) && ValidInputs(x)
    requires x.notionalBase > 0.0 && x.strike > 0.0 && x.maturityYears > 0.0 && x.spot > 0.0
    requires ShockedSpot(x.spot, pct) > 0.0
    ensures var t := x.maturityYears;
      var shocked := PriceFxForward(exp, x.notionalBase, x.strike, ShockedSpot(x.spot, pct), None, None,
                                    Some(t), Some(x.domestic), Some(x.foreign));
      shocked.Ok? && BasePv(exp, x).Ok? &&
      shocked.value - BasePv(exp, x).value == SpotGain(x.notionalBase, x.spot, pct, Df(exp, x.foreign, t).value)
  {
    var t := x.maturityYears;
    PriceValue(exp, x.notionalBase, x.strike, ShockedSpot(x.spot, pct), None, None, Some(t), Some(x.domestic), Some(x.foreign));
    PriceValue(exp, x.notionalBase, x.strike, x.spot, None, None, Some(t), Some(x.domestic), Some(x.foreign));
    DfValue(exp, x.domestic, t);
    SpotStep(x.notionalBase, x.strike, x.spot, pct, Df(exp, x.foreign, t).value, Df(exp, x.domestic, t).value);
  }

  /** The PnL of a scenario that shifts neither curve. */
  lemma SpotOnlyPnl(exp: real -> real, x: Inputs, d: ScenarioDef)
    requires IsExp(exp) && ValidInputs(x) && d.domesticBps == 0.0 && d.foreignBps == 0.0
    requires x.notionalBase > 0.0 && x.strike > 0.0 && x.maturityYears > 0.0 && x.spot > 0.0
    requires ShockedSpot(x.spot, d.spotShockPct) > 0.0
    ensures ScenarioPv(exp, x, d).Ok? && BasePv(exp, x).Ok?
    ensures ScenarioPv(exp, x, d).value - BasePv(exp, x).value
      == SpotGain(x.notionalBase, x.spot, d.spotShockPct, Df(exp, x.foreign, x.maturityYears).value)
  {
    SpotOnlyPv(exp, x, d);
    SpotPnl(exp, x, d.spotShockPct);
  }

  /** The PnL of the two spot-only rows of a table that was produced. */
  lemma SpotRowsPnl(exp: real -> real, x: Inputs, spotShockPct: real, rateShockBps: real, g: real -> string, i: nat)
    requires IsExp(exp) && ValidInputs(x) && i < 2
    requires ScenarioTable(exp, x, spotShockPct, rateShockBps, g).Ok?
    ensures var rows := ScenarioTable(exp, x, spotShockPct, rateShockBps, g).value;
      var pct := if i == 0 then -spotShockPct else spotShockPct;
      |rows| == 8 &&
      rows[i].pnl == SpotGain(x.notionalBase, x.spot, pct, Df(exp, x.foreign, x.maturityYears).value)
  {
    var d := ScenarioDefs(spotShockPct, rateShockBps, g)[i];
    TableExists(exp, x, spotShockPct, rateShockBps, g);
    TableRow(exp, x, spotShockPct, rateShockBps, g, i);
    ShockedSpotPositive(x.spot, d.spotShockPct);
    SpotOnlyPnl(exp, x, d);
  }

  /** With a positive spot shock, the spot-up row gains and the spot-down row
      loses, by the same amount. */
  lemma SpotPnlOpposite(exp: real -> real, x: Inputs, spotShockPct: real, rateShockBps: real, g: real -> string)
    requires IsExp(exp) && ValidInputs(x)
    requires spotShockPct > 0.0
    requires ScenarioTable(exp, x, spotShockPct, rateShockBps, g).Ok?
    ensures var rows := ScenarioTable(exp, x, spotShockPct, rateShockBps, g).value;
      |rows| == 8 && rows[1].pnl > 0.0 && rows[0].pnl < 0.0 && rows[0].pnl == -rows[1].pnl
  {
    SpotRowsPnl(exp, x, spotShockPct, rateShockBps, g, 0);
    SpotRowsPnl(exp, x, spotShockPct, rateShockBps, g, 1);
    TableExists(exp, x, spotShockPct, rateShockBps, g);
    DfValue(exp, x.foreign, x.maturityYears);
    GainLoss(x.notionalBase, x.spot, spotShockPct, Df(exp, x.foreign, x.maturityYears).value);
  }

  /** What a spot shock of `pct` percent earns on fixed curves: notional
      times the spot move times the foreign discount factor. */
  function SpotGain(n: real, spot: real, pct: real, foreignDf: real): real {
    n * (spot * (pct / 100.0) * foreignDf)
  }

  lemma GainLoss(n: real, spot: real, pct: real, a: real)
    requires n > 0.0 && spot > 0.0 && pct > 0.0 && a > 0.0
    ensures SpotGain(n, spot, pct, a) > 0.0
    ensures SpotGain(n, spot, -pct, a) == -SpotGain(n, spot, pct, a)
  {
    assert spot * (pct / 100.0) > 0.0;
    assert spot * (pct / 100.0) * a > 0.0;
  }

  lemma SpotLabels(g: real -> string)
    requires g(1.0) == "1"
    ensures SpotLabel("-", 1.0, g) == "Spot -1%" && SpotLabel("+", 1.0, g) == "Spot +1%"
  {
  }

  lemma RateLabels(g: real -> string)
    requires g(25.0) == "25"
    ensures RateLabel("Domestic", "+", 25.0, g) == "Domestic +25bp"
    ensures RateLabel("Domestic", "-", 25.0, g) == "Domestic -25bp"
    ensures RateLabel("Foreign", "+", 25.0, g) == "Foreign +25bp"
    ensures RateLabel("Foreign", "-", 25.0, g) == "Foreign -25bp"
  {
  }

  /** The names the library's tests expect under the default shocks, for a
      formatter that writes 1.0 as "1" and 25.0 as "25". */
  lemma DefaultNames(g: real -> string)
    requires g(1.0) == "1" && g(25.0) == "25"
    ensures var defs := ScenarioDefs(1.0, 25.0, g);
      && defs[0].name == "Spot -1%" && defs[1].name == "Spot +1%"
      && defs[2].name == "Domestic +25bp" && defs[3].name == "Domestic -25bp"
      && defs[4].name == "Foreign +25bp" && defs[5].name == "Foreign -25bp"
      && defs[6].name == "Spot +1% & Domestic +25bp" && defs[7].name == "Spot -1% & Domestic -25bp"
  {
    SpotLabels(g);
    RateLabels(g);
    CombinedLabels();
  }

  lemma CombinedLabels()
    ensures "Spot +1%" + " & " + "Domestic +25bp" == "Spot +1% & Domestic +25bp"
    ensures "Spot -1%" + " & " + "Domestic -25bp" == "Spot -1% & Domestic -25bp"
  {
  }
}
