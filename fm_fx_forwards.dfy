/** The curve-ratio FX forward pricer of src/fm_toolkit/fx_forwards.py. Each
    leg is discounted on a zero curve; a leg given only as a flat rate gets a
    one-pillar curve. Optional Python arguments are `Option`s. */
module FmFxForwards {
  import opened Results
  import opened Exponential
  import opened Pillars
  import opened FmCurves
  import opened ForwardPayoff

  /** A curve given or not, for the `*_curve` keyword arguments. */
  predicate ValidOrAbsent(c: Option<ZeroCurve>) {
    c.Some? ==> Valid(c.value)
  }

  /** `_flat_curve_from_rate`: a missing rate is an error, a rate becomes a
      curve with the one pillar t = 1.0. The source builds it through the
      constructor, whose checks it always passes (`FlatCurvePassesChecks`). */
  function FlatCurveFromRate(rate: Option<real>, missing: Error): (r: Result<ZeroCurve>)
    ensures rate.None? ==> r == Err(missing)
    ensures rate.Some? ==> r == Ok(ZeroCurve([1.0], [rate.value])) && Valid(r.value)
  {
    if rate.None? then Err(missing)
    else Ok(ZeroCurve([1.0], [rate.value]))
  }

  /** The constructor accepts the one-pillar curve of a flat rate. */
  lemma FlatCurvePassesChecks(rate: real, missing: Error)
    ensures New([1.0], [rate]) == FlatCurveFromRate(Some(rate), missing)
  {
    NewValid([1.0], [rate]);
  }

  /** `_resolve_curves`: a supplied curve is kept, a missing one is built
      from its flat rate; the domestic side is resolved first. */
  function ResolveCurves(domesticCurve: Option<ZeroCurve>, foreignCurve: Option<ZeroCurve>,
                         domesticRate: Option<real>, foreignRate: Option<real>): (r: Result<(ZeroCurve, ZeroCurve)>)
    requires ValidOrAbsent(domesticCurve) && ValidOrAbsent(foreignCurve)
    ensures r.Ok? ==> Valid(r.value.0) && Valid(r.value.1)
    ensures r.Ok? <==> (domesticCurve.Some? || domesticRate.Some?) && (foreignCurve.Some? || foreignRate.Some?)
    ensures domesticCurve.None? && domesticRate.None? ==> r == Err(MissingDomesticRate)
    ensures (domesticCurve.Some? || domesticRate.Some?) && foreignCurve.None? && foreignRate.None?
      ==> r == Err(MissingForeignRate)
    ensures r.Ok? && domesticCurve.Some? ==> r.value.0 == domesticCurve.value
    ensures r.Ok? && foreignCurve.Some? ==> r.value.1 == foreignCurve.value
  {
    var domestic := if domesticCurve.Some? then Ok(domesticCurve.value)
                    else FlatCurveFromRate(domesticRate, MissingDomesticRate);
    if domestic.Err? then Err(domestic.error)
    else
      var foreign := if foreignCurve.Some? then Ok(foreignCurve.value)
                     else FlatCurveFromRate(foreignRate, MissingForeignRate);
      if foreign.Err? then Err(foreign.error)
      else Ok((domestic.value, foreign.value))
  }

  predicate PositiveMaturity(maturityYears: Option<real>) {
    maturityYears.Some? && maturityYears.value > 0.0
  }

  /** The fair forward spot * DF_foreign(T) / DF_domestic(T) on two curves. */
  function CurveForward(exp: real -> real, spot: real, domestic: ZeroCurve, foreign: ZeroCurve, t: real): (f: real)
    requires Valid(domestic) && Valid(foreign) && IsExp(exp) && t > 0.0
    ensures spot > 0.0 ==> f > 0.0
  {
    DfValue(exp, domestic, t);
    DfValue(exp, foreign, t);
    spot * Df(exp, foreign, t).value / Df(exp, domestic, t).value
  }

  /** `forward_rate`: the maturity is checked first, then spot, then the
      curves are resolved. */
  function ForwardRate(exp: real -> real, spot: real, domesticRate: Option<real>, foreignRate: Option<real>,
                       maturityYears: Option<real>, domesticCurve: Option<ZeroCurve>,
                       foreignCurve: Option<ZeroCurve>): (r: Result<real>)
    requires IsExp(exp) && ValidOrAbsent(domesticCurve) && ValidOrAbsent(foreignCurve)
    ensures !PositiveMaturity(maturityYears) ==> r == Err(NonPositiveMaturity)
    ensures PositiveMaturity(maturityYears) && spot <= 0.0 ==> r == Err(NonPositiveSpot)
    ensures PositiveMaturity(maturityYears) && spot > 0.0 ==>
      var curves := ResolveCurves(domesticCurve, foreignCurve, domesticRate, foreignRate);
      && (curves.Err? ==> r == Err(curves.error))
      && (curves.Ok? ==> r == Ok(CurveForward(exp, spot, curves.value.0, curves.value.1, maturityYears.value)))
    ensures r.Ok? ==> r.value > 0.0
  {
    if !PositiveMaturity(maturityYears) then Err(NonPositiveMaturity)
    else if spot <= 0.0 then Err(NonPositiveSpot)
    else
      var curves := ResolveCurves(domesticCurve, foreignCurve, domesticRate, foreignRate);
      if curves.Err? then Err(curves.error)
      else Ok(CurveForward(exp, spot, curves.value.0, curves.value.1, maturityYears.value))
  }

  /** `price_fx_forward`: notional, strike and maturity are checked in that
      order, the curves are resolved, the fair forward is priced on them
      (which rejects spot), and PV = N (F - K) DF_domestic(T). */
  function PriceFxForward(exp: real -> real, notionalBase: real, strike: real, spot: real,
                          domesticRate: Option<real>, foreignRate: Option<real>, maturityYears: Option<real>,
                          domesticCurve: Option<ZeroCurve>, foreignCurve: Option<ZeroCurve>): (r: Result<real>)
    requires IsExp(exp) && ValidOrAbsent(domesticCurve) && ValidOrAbsent(foreignCurve)
    ensures notionalBase <= 0.0 ==> r == Err(NonPositiveNotional)
    ensures notionalBase > 0.0 && strike <= 0.0 ==> r == Err(NonPositiveStrike)
    ensures notionalBase > 0.0 && strike > 0.0 && !PositiveMaturity(maturityYears) ==> r == Err(NonPositiveMaturity)
  {
    if notionalBase <= 0.0 then Err(NonPositiveNotional)
    else if strike <= 0.0 then Err(NonPositiveStrike)
    else if !PositiveMaturity(maturityYears) then Err(NonPositiveMaturity)
    else
      var curves := ResolveCurves(domesticCurve, foreignCurve, domesticRate, foreignRate);
      if curves.Err? then Err(curves.error)
      else
        var domestic := curves.value.0;
        var foreign := curves.value.1;
        var fair := ForwardRate(exp, spot, None, None, maturityYears, Some(domestic), Some(foreign));
        if fair.Err? then Err(fair.error)
        else
          var discount := Df(exp, domestic, maturityYears.value).value;
          Ok(ForwardPv(notionalBase, fair.value, strike, discount))
  }

  /** Past the three input checks, a pricing fails only where resolving the
      curves or the inner `forward_rate` fails; otherwise PV = N (F - K)
      DF_domestic(T) with F the curve forward. */
  lemma PriceValue(exp: real -> real, notionalBase: real, strike: real, spot: real,
                   domesticRate: Option<real>, foreignRate: Option<real>, maturityYears: Option<real>,
                   domesticCurve: Option<ZeroCurve>, foreignCurve: Option<ZeroCurve>)
    requires IsExp(exp) && ValidOrAbsent(domesticCurve) && ValidOrAbsent(foreignCurve)
    requires notionalBase > 0.0 && strike > 0.0 && PositiveMaturity(maturityYears)
    ensures var curves := ResolveCurves(domesticCurve, foreignCurve, domesticRate, foreignRate);
      var r := PriceFxForward(exp, notionalBase, strike, spot, domesticRate, foreignRate, maturityYears,
                 domesticCurve, foreignCurve);
      && (curves.Err? ==> r == Err(curves.error))
      && (curves.Ok? && spot <= 0.0 ==> r == Err(NonPositiveSpot))
      && (curves.Ok? && spot > 0.0 ==>
            r == Ok(ForwardPv(notionalBase, CurveForward(exp, spot, curves.value.0, curves.value.1, maturityYears.value),
                              strike, Df(exp, curves.value.0, maturityYears.value).value)))
  {
    var curves := ResolveCurves(domesticCurve, foreignCurve, domesticRate, foreignRate);
    if curves.Ok? {
      var domestic := curves.value.0;
      var foreign := curves.value.1;
      var again := ResolveCurves(Some(domestic), Some(foreign), None, None);
      assert again == Ok((domestic, foreign));
      var fair := ForwardRate(exp, spot, None, None, maturityYears, Some(domestic), Some(foreign));
      if spot > 0.0 {
        assert fair == Ok(CurveForward(exp, spot, domestic, foreign, maturityYears.value));
      } else {
        assert fair == Err(NonPositiveSpot);
      }
    }
  }

  /** The forward is the spot carried by the ratio of the two discount
      factors: F * DF_domestic(T) == spot * DF_foreign(T). */
  lemma CurveForwardParity(exp: real -> real, spot: real, domestic: ZeroCurve, foreign: ZeroCurve, t: real)
    requires Valid(domestic) && Valid(foreign) && IsExp(exp) && t > 0.0
    ensures CurveForward(exp, spot, domestic, foreign, t) * Df(exp, domestic, t).value
      == spot * Df(exp, foreign, t).value
  {
    DfValue(exp, domestic, t);
  }

  /** A forward priced at the fair strike `forward_rate` returns has PV
      zero; a lower strike gives a positive PV, a higher one a negative PV. */
  lemma PriceAtFair(exp: real -> real, notionalBase: real, strike: real, spot: real,
                    maturityYears: real, domestic: ZeroCurve, foreign: ZeroCurve)
    requires IsExp(exp) && Valid(domestic) && Valid(foreign)
    requires notionalBase > 0.0 && strike > 0.0 && spot > 0.0 && maturityYears > 0.0
    ensures var fair := ForwardRate(exp, spot, None, None, Some(maturityYears), Some(domestic), Some(foreign));
      var pv := PriceFxForward(exp, notionalBase, strike, spot, None, None, Some(maturityYears), Some(domestic), Some(foreign));
      && fair.Ok? && pv.Ok?
      && (pv.value == 0.0 <==> strike == fair.value)
      && (pv.value > 0.0 <==> strike < fair.value)
      && (pv.value < 0.0 <==> strike > fair.value)
  {
    DfValue(exp, domestic, maturityYears);
    PriceValue(exp, notionalBase, strike, spot, None, None, Some(maturityYears), Some(domestic), Some(foreign));
    PvSign(notionalBase, CurveForward(exp, spot, domestic, foreign, maturityYears), strike,
           Df(exp, domestic, maturityYears).value);
  }

  /** The flat-rate call prices on one-pillar curves, and its forward is
      spot * exp(-rf T) / exp(-rd T) at every positive maturity. */
  lemma FlatRateForward(exp: real -> real, spot: real, rd: real, rf: real, t: real)
    requires IsExp(exp) && spot > 0.0 && t > 0.0
    ensures var fwd := ForwardRate(exp, spot, Some(rd), Some(rf), Some(t), None, None);
      && fwd == ForwardRate(exp, spot, None, None, Some(t), Some(ZeroCurve([1.0], [rd])), Some(ZeroCurve([1.0], [rf])))
      && fwd.Ok? && fwd.value == spot * Discount(exp, rf, t) / Discount(exp, rd, t)
  {
    var d := ZeroCurve([1.0], [rd]);
    var f := ZeroCurve([1.0], [rf]);
    assert Valid(d) && Valid(f);
    DfValue(exp, d, t);
    DfValue(exp, f, t);
    assert RateAt(d, t) == Ok(rd);
    assert RateAt(f, t) == Ok(rf);
  }
}
