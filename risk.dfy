/** The risk measures of src/ing_fm/risk.py: a finite-difference spot delta
    on the analytic FX pricer and the swap DV01. The DV01 calls
    `ing_fm.swaps.swap_pv01`; src/ing_fm/swaps.py is not part of this model,
    so the DV01 is taken on the swap pricer of Swaps, over the fm_toolkit
    curve. */
module Risk {
  import opened Results
  import opened Exponential
  import opened ForwardPayoff
  import opened IngFxForwards
  import FmCurves
  import Swaps

  /** `fx_forward_spot_delta`: the PV at spot and at spot (1 + rel_bump),
      priced in that order, then their difference over spot * rel_bump. */
  function SpotDelta(exp: real -> real, notionalBase: real, strike: real, spot: real, domesticRate: real,
                     foreignRate: real, maturityYears: real, relBump: real := 0.0001): (r: Result<real>)
    requires IsExp(exp)
    ensures relBump == 0.0 ==> r.Err?
  {
    var basePv := PriceFxForward(exp, notionalBase, strike, spot, domesticRate, foreignRate, maturityYears);
    if basePv.Err? then Err(basePv.error)
    else
      var bumpedPv := PriceFxForward(exp, notionalBase, strike, spot * (1.0 + relBump), domesticRate,
                                     foreignRate, maturityYears);
      if bumpedPv.Err? then Err(bumpedPv.error)
      else if spot * relBump == 0.0 then Err(DivisionByZero)
      else Ok(FiniteDifference(bumpedPv.value, basePv.value, spot * relBump))
  }

  /** (bumped - base) / step. */
  function FiniteDifference(bumped: real, base: real, step: real): real
    requires step != 0.0
  {
    (bumped - base) / step
  }

  /** N exp((rd - rf) T) exp(-rd T): the PV gained per unit of spot. */
  function DeltaValue(exp: real -> real, notionalBase: real, domesticRate: real, foreignRate: real,
                      maturityYears: real): real {
    notionalBase * Carry(exp, domesticRate, foreignRate, maturityYears) * Discount(exp, domesticRate, maturityYears)
  }

  /** The delta exists exactly when both pricings go through and the bump
      is not zero; the base pricing's error comes first, then the bumped
      spot's, then the division. */
  lemma SpotDeltaErrors(exp: real -> real, notionalBase: real, strike: real, spot: real, rd: real,
                        rf: real, t: real, relBump: real)
    requires IsExp(exp)
    ensures var delta := SpotDelta(exp, notionalBase, strike, spot, rd, rf, t, relBump);
      var basePv := PriceFxForward(exp, notionalBase, strike, spot, rd, rf, t);
      && (delta.Ok? <==> notionalBase > 0.0 && strike > 0.0 && t > 0.0 && spot > 0.0
                         && spot * (1.0 + relBump) > 0.0 && relBump != 0.0)
      && (basePv.Err? ==> delta == Err(basePv.error))
      && (basePv.Ok? && spot * (1.0 + relBump) <= 0.0 ==> delta == Err(NonPositiveSpot))
      && (basePv.Ok? && relBump == 0.0 ==> delta == Err(DivisionByZero))
  {
    var basePv := PriceFxForward(exp, notionalBase, strike, spot, rd, rf, t);
    if basePv.Ok? && relBump != 0.0 {
      assert spot * relBump != 0.0;
    }
    if basePv.Ok? && relBump == 0.0 {
      assert spot * (1.0 + relBump) == spot;
    }
  }

  /** The PV is affine in spot, so the delta is N exp((rd - rf) T)
      exp(-rd T) whatever the strike and the bump. */
  lemma SpotDeltaValue(exp: real -> real, notionalBase: real, strike: real, spot: real, rd: real,
                       rf: real, t: real, relBump: real)
    requires IsExp(exp) && notionalBase > 0.0 && strike > 0.0 && t > 0.0 && spot > 0.0
    requires spot * (1.0 + relBump) > 0.0 && relBump != 0.0
    ensures SpotDelta(exp, notionalBase, strike, spot, rd, rf, t, relBump) == Ok(DeltaValue(exp, notionalBase, rd, rf, t))
  {
    assert ForwardRate(exp, spot, rd, rf, t).value == spot * Carry(exp, rd, rf, t);
    assert ForwardRate(exp, spot * (1.0 + relBump), rd, rf, t).value == spot * (1.0 + relBump) * Carry(exp, rd, rf, t);
    var basePv := ForwardPv(notionalBase, spot * Carry(exp, rd, rf, t), strike, Discount(exp, rd, t));
    var bumpedPv := ForwardPv(notionalBase, spot * (1.0 + relBump) * Carry(exp, rd, rf, t), strike, Discount(exp, rd, t));
    assert PriceFxForward(exp, notionalBase, strike, spot, rd, rf, t) == Ok(basePv);
    assert PriceFxForward(exp, notionalBase, strike, spot * (1.0 + relBump), rd, rf, t) == Ok(bumpedPv);
    assert SpotDelta(exp, notionalBase, strike, spot, rd, rf, t, relBump) == Ok(FiniteDifference(bumpedPv, basePv, spot * relBump));
    DeltaQuotient(notionalBase, strike, spot, relBump, Carry(exp, rd, rf, t), Discount(exp, rd, t));
    assert FiniteDifference(bumpedPv, basePv, spot * relBump) == DeltaValue(exp, notionalBase, rd, rf, t);
  }

  /** The finite difference of N (s c - K) d over a relative spot bump is
      N c d. */
  lemma DeltaQuotient(n: real, k: real, spot: real, relBump: real, c: real, d: real)
    requires spot * relBump != 0.0
    ensures FiniteDifference(ForwardPv(n, spot * (1.0 + relBump) * c, k, d), ForwardPv(n, spot * c, k, d), spot * relBump)
      == n * c * d
  {
    var step := spot * relBump;
    assert spot * (1.0 + relBump) * c == spot * c + step * c;
    PvForwardStep(n, spot * c, step * c, k, d);
    assert n * (step * c) * d == step * (n * c * d);
  }

  /** The delta of a positive notional is positive: the long-base forward
      gains when spot rises. */
  lemma SpotDeltaPositive(exp: real -> real, notionalBase: real, strike: real, spot: real, rd: real,
                          rf: real, t: real, relBump: real)
    requires IsExp(exp) && notionalBase > 0.0 && strike > 0.0 && t > 0.0 && spot > 0.0
    requires spot * (1.0 + relBump) > 0.0 && relBump != 0.0
    ensures var delta := SpotDelta(exp, notionalBase, strike, spot, rd, rf, t, relBump);
      delta.Ok? && delta.value > 0.0
  {
    SpotDeltaValue(exp, notionalBase, strike, spot, rd, rf, t, relBump);
    Positive(exp, (rd - rf) * t);
    DiscountPositive(exp, rd, t);
    var c := Carry(exp, rd, rf, t);
    assert notionalBase * c > 0.0;
  }

  /** Two bumps give the same delta. */
  lemma SpotDeltaBumpFree(exp: real -> real, notionalBase: real, strike: real, spot: real, rd: real,
                          rf: real, t: real, b1: real, b2: real)
    requires IsExp(exp) && notionalBase > 0.0 && strike > 0.0 && t > 0.0 && spot > 0.0
    requires spot * (1.0 + b1) > 0.0 && b1 != 0.0 && spot * (1.0 + b2) > 0.0 && b2 != 0.0
    ensures SpotDelta(exp, notionalBase, strike, spot, rd, rf, t, b1)
         == SpotDelta(exp, notionalBase, strike, spot, rd, rf, t, b2)
  {
    SpotDeltaValue(exp, notionalBase, strike, spot, rd, rf, t, b1);
    SpotDeltaValue(exp, notionalBase, strike, spot, rd, rf, t, b2);
  }

  /** `swap_parallel_dv01`: the PV01 for a one-basis-point bump. */
  function SwapParallelDv01(exp: real -> real, s: Swaps.VanillaSwap, c: FmCurves.ZeroCurve): (r: Result<real>)
    requires FmCurves.Valid(c)
    ensures r == Swaps.SwapPv01(exp, s, c, 1.0)
  {
    Swaps.SwapPv01(exp, s, c, 1.0)
  }

  /** The payer's DV01 is positive, the receiver's negative, and they are
      equal in magnitude. */
  lemma Dv01Sign(exp: real -> real, s: Swaps.VanillaSwap, c: FmCurves.ZeroCurve)
    requires IsExp(exp) && FmCurves.Valid(c) && Swaps.ValidSwap(s)
    requires Swaps.PaymentTimes(s.maturityYears, s.paymentsPerYear).Ok?
    ensures var payer := SwapParallelDv01(exp, s.(payFixed := true), c);
      var receiver := SwapParallelDv01(exp, s.(payFixed := false), c);
      && payer.Ok? && receiver.Ok?
      && payer.value > 0.0 && receiver.value < 0.0 && receiver.value == -payer.value
  {
    Swaps.Pv01Sign(exp, s, c, 1.0);
  }
}
