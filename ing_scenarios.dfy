/** The market scenarios of src/ing_fm/scenarios.py: a scenario record and
    its application to a zero curve and to a spot. */
module IngScenarios {
  import opened Results
  import opened IngCurves

  /** The `MarketScenario` record; both shocks default to zero. */
  datatype MarketScenario = MarketScenario(name: string, parallelRateBumpBp: real := 0.0, fxSpotShockPct: real := 0.0)

  /** `apply_curve_scenario`: every rate raised by bump * 1e-4 on the same
      pillar times. */
  function ApplyCurveScenario(c: ZeroCurve, s: MarketScenario): (r: ZeroCurve)
    requires Valid(c)
    ensures Valid(r) && r.times == c.times && |r.zeroRates| == |c.zeroRates|
    ensures forall i :: 0 <= i < |c.zeroRates| ==> r.zeroRates[i] == c.zeroRates[i] + s.parallelRateBumpBp * 0.0001
  {
    Shifted(c, s.parallelRateBumpBp)
  }

  /** `apply_fx_scenario`: the spot scaled by one plus the shock, the shock
      being read as a fraction (0.01 is one percent). */
  function ApplyFxScenario(spot: real, s: MarketScenario): (r: real)
    ensures spot > 0.0 && s.fxSpotShockPct > -1.0 ==> r > 0.0
  {
    spot * (1.0 + s.fxSpotShockPct)
  }

  /** A scenario with the default shocks leaves the curve and the spot as
      they are. */
  lemma DefaultScenarioNeutral(c: ZeroCurve, spot: real, name: string)
    requires Valid(c)
    ensures ApplyCurveScenario(c, MarketScenario(name)) == c
    ensures ApplyFxScenario(spot, MarketScenario(name)) == spot
  {
    ShiftedZero(c);
  }

  /** The spot shock is proportional: the shocked spot moves by spot * shock
      and stays positive while the shock is above -100%. */
  lemma ApplyFxScenarioMoves(spot: real, s: MarketScenario)
    ensures ApplyFxScenario(spot, s) - spot == spot * s.fxSpotShockPct
    ensures spot > 0.0 && s.fxSpotShockPct > -1.0 ==> ApplyFxScenario(spot, s) > 0.0
  {
  }

  /** Every looked-up rate of the scenario curve is raised by the bump. */
  lemma ApplyCurveScenarioRate(c: ZeroCurve, s: MarketScenario, t: real)
    requires Valid(c) && t > 0.0
    ensures RateAt(ApplyCurveScenario(c, s), t) == Ok(RateAt(c, t).value + s.parallelRateBumpBp * 0.0001)
  {
    ShiftedRate(c, s.parallelRateBumpBp, t);
  }

  /** Applying a curve scenario and then its opposite restores the curve. */
  lemma ApplyCurveScenarioRoundTrip(c: ZeroCurve, name: string, bumpBp: real)
    requires Valid(c)
    ensures ApplyCurveScenario(ApplyCurveScenario(c, MarketScenario(name, bumpBp)), MarketScenario(name, -bumpBp)) == c
  {
    ShiftedRoundTrip(c, bumpBp);
  }
}
