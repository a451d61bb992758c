/** `ZeroCurve` of src/ing_fm/curves.py, the older variant: at least two
    pillars, ascending pillar times that may repeat, the same lookup rule. */
module IngCurves {
  import opened Results
  import opened Pillars
  import opened Exponential

  datatype ZeroCurve = ZeroCurve(times: seq<real>, zeroRates: seq<real>)

  /** What `__post_init__` accepts: one rate per pillar, two pillars or more,
      positive times, never decreasing (repeated times are allowed). */
  predicate Valid(c: ZeroCurve) {
    |c.times| == |c.zeroRates| >= 2 && AllPositive(c.times) && NonDecreasing(c.times)
  }

  /** The constructor with its `__post_init__` checks, in the source's order. */
  function New(times: seq<real>, zeroRates: seq<real>): (r: Result<ZeroCurve>)
    ensures r.Ok? ==> r.value.times == times && r.value.zeroRates == zeroRates
  {
    if |times| != |zeroRates| then Err(LengthMismatch)
    else if |times| < 2 then Err(TooFewPillars)
    else if !AllPositive(times) then Err(NonPositiveTime)
    else if times != Sorted(times) then Err(UnsortedTimes)
    else Ok(ZeroCurve(times, zeroRates))
  }

  /** Construction succeeds exactly on the valid curves, and which check
      rejects an invalid one. */
  lemma NewValid(times: seq<real>, zeroRates: seq<real>)
    ensures New(times, zeroRates).Ok? <==> Valid(ZeroCurve(times, zeroRates))
    ensures |times| != |zeroRates| ==> New(times, zeroRates) == Err(LengthMismatch)
    ensures |times| == |zeroRates| < 2 ==> New(times, zeroRates) == Err(TooFewPillars)
    ensures |times| == |zeroRates| >= 2 && !AllPositive(times)
      ==> New(times, zeroRates) == Err(NonPositiveTime)
    ensures |times| == |zeroRates| >= 2 && AllPositive(times) && !NonDecreasing(times)
      ==> New(times, zeroRates) == Err(UnsortedTimes)
  {
    EqualsSortedIff(times);
  }

  /** Repeated pillar times pass the checks. */
  lemma RepeatedTimesAccepted()
    ensures New([1.0, 1.0], [0.01, 0.02]).Ok?
  {
    NewValid([1.0, 1.0], [0.01, 0.02]);
  }

  function AnnualTimes(n: nat): (ts: seq<real>)
    ensures |ts| == n
    ensures forall i :: 0 <= i < n ==> ts[i] == (i + 1) as real
  {
    seq(n, i requires 0 <= i < n => (i + 1) as real)
  }

  function Constant(rate: real, n: nat): (rs: seq<real>)
    ensures |rs| == n
    ensures forall i :: 0 <= i < n ==> rs[i] == rate
  {
    seq(n, i requires 0 <= i < n => rate)
  }

  /** `ZeroCurve.flat`: annual pillars 1..max_years, all at `rate`. */
  function Flat(rate: real, maxYears: int := 10): (r: Result<ZeroCurve>)
    ensures r.Ok? ==> |r.value.times| == |r.value.zeroRates| == maxYears
    ensures r.Ok? ==> forall i :: 0 <= i < |r.value.zeroRates| ==> r.value.zeroRates[i] == rate
  {
    var n := if maxYears < 0 then 0 else maxYears;
    New(AnnualTimes(n), Constant(rate, n))
  }

  /** A flat curve needs two pillars, so `flat(rate, 1)` fails; from two
      pillars on its rate is `rate` at every positive maturity. */
  lemma FlatRate(rate: real, maxYears: int, t: real)
    ensures Flat(rate, maxYears).Ok? <==> maxYears >= 2
    ensures maxYears < 2 ==> Flat(rate, maxYears) == Err(TooFewPillars)
    ensures maxYears >= 2 ==>
      && Valid(Flat(rate, maxYears).value)
      && Flat(rate, maxYears).value.times == AnnualTimes(maxYears)
      && (t > 0.0 ==> RateAt(Flat(rate, maxYears).value, t) == Ok(rate))
  {
    var n := if maxYears < 0 then 0 else maxYears;
    var ts := AnnualTimes(n);
    assert AllPositive(ts);
    assert NonDecreasing(ts);
    NewValid(ts, Constant(rate, n));
    if n >= 2 {
      InterpolateConstant(ts, Constant(rate, n), rate, t);
    }
  }

  /** What `zero_rate(t)` returns: an error for `t <= 0`, otherwise the
      interpolated rate. */
  function RateAt(c: ZeroCurve, t: real): (r: Result<real>)
    requires Valid(c)
    ensures r.Ok? <==> t > 0.0
    ensures r.Err? ==> r.error == NonPositiveLookup
  {
    if t <= 0.0 then Err(NonPositiveLookup) else Ok(Interpolate(c.times, c.zeroRates, t))
  }

  /** `zero_rate`: the three guards, then the search loop. */
  method ZeroRate(c: ZeroCurve, t: real) returns (r: Result<real>)
    requires Valid(c)
    ensures r == RateAt(c, t)
  {
    if t <= 0.0 {
      return Err(NonPositiveLookup);
    }
    if t <= c.times[0] {
      return Ok(c.zeroRates[0]);
    }
    if t >= c.times[|c.times| - 1] {
      return Ok(c.zeroRates[|c.zeroRates| - 1]);
    }
    var rate := Scan(c.times, c.zeroRates, t);
    return Ok(rate);
  }

  /** The lookup's cases. Between the end pillars the loop stops at the one
      index with times[i-1] < t <= times[i], an interval of positive width
      even when pillar times repeat, and the rate is read off the segment
      between its two rates. */
  lemma RateAtCases(c: ZeroCurve, t: real, i: nat)
    requires Valid(c)
    ensures t <= 0.0 <==> RateAt(c, t) == Err(NonPositiveLookup)
    ensures 0.0 < t <= c.times[0] ==> RateAt(c, t) == Ok(c.zeroRates[0])
    ensures c.times[0] < t && t >= Last(c.times) ==> RateAt(c, t) == Ok(Last(c.zeroRates))
    ensures c.times[0] < t < Last(c.times) ==>
      var k := Bracket(c.times, t, 1);
      && c.times[k - 1] < t <= c.times[k]
      && RateAt(c, t) == Ok(Lerp(c.times[k - 1], c.zeroRates[k - 1], c.times[k], c.zeroRates[k], t))
    ensures 1 <= i < |c.times| && c.times[i - 1] < t <= c.times[i] && t < Last(c.times) ==>
      && Bracket(c.times, t, 1) == i
      && Between(RateAt(c, t).value, c.zeroRates[i - 1], c.zeroRates[i])
  {
    InterpolateCases(c.times, c.zeroRates, t, i);
    if 1 <= i < |c.times| && c.times[i - 1] < t <= c.times[i] && t < Last(c.times) {
      BracketUnique(c.times, t, i);
      InterpolateBetween(c.times, c.zeroRates, t, i);
    }
  }

  /** `discount_factor(t)`: exp(-r(t) t). */
  function DiscountFactor(exp: real -> real, c: ZeroCurve, t: real): (r: Result<real>)
    requires Valid(c)
    ensures r.Ok? <==> t > 0.0
  {
    if t <= 0.0 then Err(NonPositiveLookup)
    else Ok(Discount(exp, Interpolate(c.times, c.zeroRates, t), t))
  }

  /** At every positive maturity the discount factor is exp(-r(t) t), which
      is positive. */
  lemma DiscountFactorValue(exp: real -> real, c: ZeroCurve, t: real)
    requires Valid(c) && IsExp(exp) && t > 0.0
    ensures DiscountFactor(exp, c, t).value == Discount(exp, RateAt(c, t).value, t)
    ensures DiscountFactor(exp, c, t).value > 0.0
  {
    DiscountPositive(exp, RateAt(c, t).value, t);
  }

  /** `shifted(bump_bp)`: the same pillars with every rate raised by
      bump_bp * 1e-4. The source builds it through the constructor, whose
      checks it always passes (`ShiftedPassesChecks`). */
  function Shifted(c: ZeroCurve, bumpBp: real): (s: ZeroCurve)
    requires Valid(c)
    ensures Valid(s)
    ensures s.times == c.times
    ensures |s.zeroRates| == |c.zeroRates|
    ensures forall i :: 0 <= i < |c.zeroRates| ==> s.zeroRates[i] == c.zeroRates[i] + bumpBp * 0.0001
  {
    ZeroCurve(c.times, AddToAll(c.zeroRates, bumpBp * 0.0001))
  }

  /** The constructor accepts the shifted pillars and rates. */
  lemma ShiftedPassesChecks(c: ZeroCurve, bumpBp: real)
    requires Valid(c)
    ensures New(c.times, AddToAll(c.zeroRates, bumpBp * 0.0001)) == Ok(Shifted(c, bumpBp))
  {
    NewValid(c.times, AddToAll(c.zeroRates, bumpBp * 0.0001));
  }

  /** Every looked-up rate of the shifted curve is raised by the shift. */
  lemma ShiftedRate(c: ZeroCurve, bumpBp: real, t: real)
    requires Valid(c) && t > 0.0
    ensures RateAt(Shifted(c, bumpBp), t) == Ok(RateAt(c, t).value + bumpBp * 0.0001)
  {
    InterpolateShift(c.times, c.zeroRates, bumpBp * 0.0001, t);
    assert Shifted(c, bumpBp).zeroRates == AddToAll(c.zeroRates, bumpBp * 0.0001);
  }

  /** The opposite shift restores the rates. */
  lemma ShiftedRoundTrip(c: ZeroCurve, bumpBp: real)
    requires Valid(c)
    ensures Shifted(Shifted(c, bumpBp), -bumpBp) == c
  {
    var back := Shifted(Shifted(c, bumpBp), -bumpBp);
    assert back.zeroRates == c.zeroRates by {
      forall i | 0 <= i < |c.zeroRates| ensures back.zeroRates[i] == c.zeroRates[i] {
        assert -bumpBp * 0.0001 == -(bumpBp * 0.0001);
      }
    }
  }

  /** A zero shift changes nothing. */
  lemma ShiftedZero(c: ZeroCurve)
    requires Valid(c)
    ensures Shifted(c, 0.0) == c
  {
    assert Shifted(c, 0.0).zeroRates == c.zeroRates;
  }
}
