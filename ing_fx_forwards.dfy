/** The analytic FX forward pricer of src/ing_fm/fx_forwards.py: flat
    continuously-compounded rates, F = spot * exp((rd - rf) T). */
module IngFxForwards {
  import opened Results
  import opened Exponential
  import opened ForwardPayoff
  import FmCurves
  import FmFxForwards

  /** The carry factor exp((rd - rf) T). */
  function Carry(exp: real -> real, domesticRate: real, foreignRate: real, maturityYears: real): real {
    exp((domesticRate - foreignRate) * maturityYears)
  }

  /** `forward_rate`: the maturity is checked before spot. */
  function ForwardRate(exp: real -> real, spot: real, domesticRate: real, foreignRate: real,
                       maturityYears: real): (r: Result<real>)
    requires IsExp(exp)
    ensures maturityYears <= 0.0 ==> r == Err(NonPositiveMaturity)
    ensures maturityYears > 0.0 && spot <= 0.0 ==> r == Err(NonPositiveSpot)
    ensures r.Ok? <==> maturityYears > 0.0 && spot > 0.0
    ensures r.Ok? ==> r.value > 0.0
  {
    if maturityYears <= 0.0 then Err(NonPositiveMaturity)
    else if spot <= 0.0 then Err(NonPositiveSpot)
    else
      Positive(exp, (domesticRate - foreignRate) * maturityYears);
      Ok(spot * Carry(exp, domesticRate, foreignRate, maturityYears))
  }

  /** `price_fx_forward`: notional and strike are checked here, maturity and
      spot by the inner `forward_rate`; PV = N (F - K) exp(-rd T). */
  function PriceFxForward(exp: real -> real, notionalBase: real, strike: real, spot: real,
                          domesticRate: real, foreignRate: real, maturityYears: real): (r: Result<real>)
    requires IsExp(exp)
    ensures notionalBase <= 0.0 ==> r == Err(NonPositiveNotional)
    ensures notionalBase > 0.0 && strike <= 0.0 ==> r == Err(NonPositiveStrike)
    ensures notionalBase > 0.0 && strike > 0.0 ==>
      var fair := ForwardRate(exp, spot, domesticRate, foreignRate, maturityYears);
      && (fair.Err? ==> r == Err(fair.error))
      && (fair.Ok? ==> r == Ok(ForwardPv(notionalBase, fair.value, strike, Discount(exp, domesticRate, maturityYears))))
    ensures r.Ok? <==> notionalBase > 0.0 && strike > 0.0 && maturityYears > 0.0 && spot > 0.0
  {
    if notionalBase <= 0.0 then Err(NonPositiveNotional)
    else if strike <= 0.0 then Err(NonPositiveStrike)
    else
      var fair := ForwardRate(exp, spot, domesticRate, foreignRate, maturityYears);
      if fair.Err? then Err(fair.error)
      else Ok(ForwardPv(notionalBase, fair.value, strike, Discount(exp, domesticRate, maturityYears)))
  }

  /** Covered interest parity: carrying by exp((rd - rf) T) and discounting
      at rd is discounting at rf. */
  lemma CarryParity(exp: real -> real, rd: real, rf: real, t: real)
    requires IsExp(exp)
    ensures Carry(exp, rd, rf, t) * Discount(exp, rd, t) == Discount(exp, rf, t)
  {
    SumLaw(exp, -rf * t, (rd - rf) * t, -rd * t);
  }

  /** F * exp(-rd T) == spot * exp(-rf T). */
  lemma ForwardParity(exp: real -> real, spot: real, rd: real, rf: real, t: real)
    requires IsExp(exp) && spot > 0.0 && t > 0.0
    ensures var f := ForwardRate(exp, spot, rd, rf, t);
      f.Ok? && f.value * Discount(exp, rd, t) == spot * Discount(exp, rf, t)
  {
    CarryParity(exp, rd, rf, t);
    assert spot * Carry(exp, rd, rf, t) * Discount(exp, rd, t)
        == spot * (Carry(exp, rd, rf, t) * Discount(exp, rd, t));
  }

  /** A forward struck at `forward_rate` has PV zero, a lower strike a
      positive PV and a higher one a negative PV. */
  lemma PriceAtFair(exp: real -> real, notionalBase: real, strike: real, spot: real,
                    rd: real, rf: real, t: real)
    requires IsExp(exp) && notionalBase > 0.0 && strike > 0.0 && spot > 0.0 && t > 0.0
    ensures var fair := ForwardRate(exp, spot, rd, rf, t);
      var pv := PriceFxForward(exp, notionalBase, strike, spot, rd, rf, t);
      && fair.Ok? && pv.Ok?
      && (pv.value == 0.0 <==> strike == fair.value)
      && (pv.value > 0.0 <==> strike < fair.value)
      && (pv.value < 0.0 <==> strike > fair.value)
  {
    DiscountPositive(exp, rd, t);
    PvSign(notionalBase, ForwardRate(exp, spot, rd, rf, t).value, strike, Discount(exp, rd, t));
  }

  /** The PV falls strictly as the strike rises. */
  lemma PriceDecreasingInStrike(exp: real -> real, notionalBase: real, k1: real, k2: real, spot: real,
                                rd: real, rf: real, t: real)
    requires IsExp(exp) && notionalBase > 0.0 && 0.0 < k1 < k2 && spot > 0.0 && t > 0.0
    ensures var pv1 := PriceFxForward(exp, notionalBase, k1, spot, rd, rf, t);
      var pv2 := PriceFxForward(exp, notionalBase, k2, spot, rd, rf, t);
      pv1.Ok? && pv2.Ok? && pv2.value < pv1.value
  {
    DiscountPositive(exp, rd, t);
    PvDecreasingInStrike(notionalBase, ForwardRate(exp, spot, rd, rf, t).value, k1, k2, Discount(exp, rd, t));
  }

  /** On every input the analytic forward is the curve-ratio pricer's
      flat-rate forward: the same errors, in the same order, and the same
      value. */
  lemma ForwardMatchesCurveRatio(exp: real -> real, spot: real, rd: real, rf: real, t: real)
    requires IsExp(exp)
    ensures ForwardRate(exp, spot, rd, rf, t)
      == FmFxForwards.ForwardRate(exp, spot, Some(rd), Some(rf), Some(t), None, None)
  {
    if t <= 0.0 {
      assert !FmFxForwards.PositiveMaturity(Some(t));
    } else if spot <= 0.0 {
      assert FmFxForwards.PositiveMaturity(Some(t));
    } else {
      ForwardValuesMatch(exp, spot, rd, rf, t);
    }
  }

  lemma ForwardValuesMatch(exp: real -> real, spot: real, rd: real, rf: real, t: real)
    requires IsExp(exp) && spot > 0.0 && t > 0.0
    ensures FmFxForwards.ForwardRate(exp, spot, Some(rd), Some(rf), Some(t), None, None).value
      == spot * Carry(exp, rd, rf, t)
  {
    CarryRatio(exp, spot, rd, rf, t);
    FmFxForwards.FlatRateForward(exp, spot, rd, rf, t);
  }

  /** The carried spot is the spot times the ratio of the two discount
      factors. */
  lemma CarryRatio(exp: real -> real, spot: real, rd: real, rf: real, t: real)
    requires IsExp(exp)
    ensures spot * Discount(exp, rf, t) / Discount(exp, rd, t) == spot * Carry(exp, rd, rf, t)
  {
    CarryParity(exp, rd, rf, t);
    DiscountPositive(exp, rd, t);
    Rescale(spot, Carry(exp, rd, rf, t), Discount(exp, rd, t), Discount(exp, rf, t));
  }

  lemma Rescale(spot: real, c: real, d: real, f: real)
    requires d > 0.0 && c * d == f
    ensures spot * f / d == spot * c
  {
  }

  /** On every input the analytic PV is the curve-ratio pricer's flat-rate
      PV. */
  lemma PriceMatchesCurveRatio(exp: real -> real, notionalBase: real, strike: real, spot: real,
                               rd: real, rf: real, t: real)
    requires IsExp(exp)
    ensures PriceFxForward(exp, notionalBase, strike, spot, rd, rf, t)
      == FmFxForwards.PriceFxForward(exp, notionalBase, strike, spot, Some(rd), Some(rf), Some(t), None, None)
  {
    if notionalBase > 0.0 && strike > 0.0 && t > 0.0 {
      var d := FmCurves.ZeroCurve([1.0], [rd]);
      var f := FmCurves.ZeroCurve([1.0], [rf]);
      assert FmFxForwards.ResolveCurves(None, None, Some(rd), Some(rf)) == Ok((d, f));
      FmFxForwards.PriceValue(exp, notionalBase, strike, spot, Some(rd), Some(rf), Some(t), None, None);
      ForwardMatchesCurveRatio(exp, spot, rd, rf, t);
      FmCurves.DfValue(exp, d, t);
      assert FmCurves.RateAt(d, t) == Ok(rd);
    }
  }
}
