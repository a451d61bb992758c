/** `ZeroCurve` of src/fm_toolkit/curves.py: a continuously-compounded zero
    curve on strictly ascending positive pillar times, with linear
    interpolation between pillars and flat extrapolation beyond them. */
module FmCurves {
  import opened Results
  import opened Pillars
  import opened Exponential
  import Tenor

  datatype ZeroCurve = ZeroCurve(times: seq<real>, zeroRates: seq<real>)

  /** What `__post_init__` accepts: one rate per pillar, at least one pillar,
      positive times, ascending without repeats. */
  predicate Valid(c: ZeroCurve) {
    |c.times| == |c.zeroRates| >= 1 && AllPositive(c.times) && StrictlyIncreasing(c.times)
  }

  /** The constructor with its `__post_init__` checks, in the source's order:
      sortedness is `list(times) != sorted(times)` and uniqueness is
      `len(set(times)) != len(times)`. */
  function New(times: seq<real>, zeroRates: seq<real>): (r: Result<ZeroCurve>)
    ensures r.Ok? ==> r.value.times == times && r.value.zeroRates == zeroRates
  {
    if |times| != |zeroRates| then Err(LengthMismatch)
    else if |times| < 1 then Err(TooFewPillars)
    else if !AllPositive(times) then Err(NonPositiveTime)
    else if times != Sorted(times) then Err(UnsortedTimes)
    else if |Elements(times)| != |times| then Err(DuplicateTimes)
    else Ok(ZeroCurve(times, zeroRates))
  }

  /** Construction succeeds exactly on the valid curves. */
  lemma NewValid(times: seq<real>, zeroRates: seq<real>)
    ensures New(times, zeroRates).Ok? <==> Valid(ZeroCurve(times, zeroRates))
  {
    EqualsSortedIff(times);
    if NonDecreasing(times) {
      UniqueSortedIsStrict(times);
    } else {
      assert !StrictlyIncreasing(times);
    }
  }

  /** Which check rejects an invalid curve. */
  lemma NewErrors(times: seq<real>, zeroRates: seq<real>)
    ensures |times| != |zeroRates| ==> New(times, zeroRates) == Err(LengthMismatch)
    ensures |times| == |zeroRates| == 0 ==> New(times, zeroRates) == Err(TooFewPillars)
    ensures |times| == |zeroRates| >= 1 && !AllPositive(times)
      ==> New(times, zeroRates) == Err(NonPositiveTime)
    ensures |times| == |zeroRates| >= 1 && AllPositive(times) && !NonDecreasing(times)
      ==> New(times, zeroRates) == Err(UnsortedTimes)
    ensures |times| == |zeroRates| >= 1 && AllPositive(times) && NonDecreasing(times) && !Distinct(times)
      ==> New(times, zeroRates) == Err(DuplicateTimes)
  {
    EqualsSortedIff(times);
    ElementsCount(times);
  }

  /** `[1, 2, ..., n]` as pillar times. */
  function AnnualTimes(n: nat): (ts: seq<real>)
    ensures |ts| == n
    ensures forall i :: 0 <= i < n ==> ts[i] == (i + 1) as real
  {
    seq(n, i requires 0 <= i < n => (i + 1) as real)
  }

  function Constant(rate: real, n: nat): (rs: seq<real>)
    ensures |rs| == n
    ensures forall i :: 0 <= i < n ==> rs[i] == rate
  {
    seq(n, i requires 0 <= i < n => rate)
  }

  /** `ZeroCurve.flat`: annual pillars 1..max_years, all at `rate`. */
  function Flat(rate: real, maxYears: int := 10): (r: Result<ZeroCurve>)
    ensures r.Ok? ==> |r.value.times| == |r.value.zeroRates| == maxYears
    ensures r.Ok? ==> forall i :: 0 <= i < |r.value.zeroRates| ==> r.value.zeroRates[i] == rate
  {
    var n := if maxYears < 0 then 0 else maxYears;
    New(AnnualTimes(n), Constant(rate, n))
  }

  /** A flat curve exists for one pillar or more; its rate is `rate` at every
      positive maturity. */
  lemma FlatRate(rate: real, maxYears: int, t: real)
    ensures Flat(rate, maxYears).Ok? <==> maxYears >= 1
    ensures maxYears < 1 ==> Flat(rate, maxYears) == Err(TooFewPillars)
    ensures maxYears >= 1 ==>
      && Valid(Flat(rate, maxYears).value)
      && Flat(rate, maxYears).value.times == AnnualTimes(maxYears)
      && (t > 0.0 ==> RateAt(Flat(rate, maxYears).value, t) == Ok(rate))
  {
    var n := if maxYears < 0 then 0 else maxYears;
    var ts := AnnualTimes(n);
    assert AllPositive(ts);
    assert StrictlyIncreasing(ts);
    NewValid(ts, Constant(rate, n));
    if n >= 1 {
      InterpolateConstant(ts, Constant(rate, n), rate, t);
    }
  }

  // ---------------------------------------------------------------------
  // from_tenors

  /** `[parse(tenor) for tenor in tenors]`: the parsed values, or the error
      of the first label that does not parse. */
  function ParseEach(tenors: seq<string>, parse: string -> Result<real>): (r: Result<seq<real>>)
    ensures r.Ok? ==> |r.value| == |tenors|
    ensures r.Ok? ==> forall i :: 0 <= i < |tenors| ==> parse(tenors[i]) == Ok(r.value[i])
    ensures r.Ok? <==> forall i :: 0 <= i < |tenors| ==> parse(tenors[i]).Ok?
    ensures r.Err? ==> exists i :: FirstFailure(tenors, parse, i, r.error)
    decreases |tenors|
  {
    if tenors == [] then Ok([])
    else
      match parse(tenors[0])
      case Err(e) =>
        assert FirstFailure(tenors, parse, 0, e);
        Err(e)
      case Ok(p) =>
        match ParseEach(tenors[1..], parse)
        case Err(e) =>
          ghost var i :| FirstFailure(tenors[1..], parse, i, e);
          assert FirstFailure(tenors, parse, i + 1, e);
          Err(e)
        case Ok(ps) => Ok([p] + ps)
  }

  /** `tenors[i]` is the first label that does not parse, failing with `e`. */
  predicate FirstFailure(tenors: seq<string>, parse: string -> Result<real>, i: int, e: Error) {
    && 0 <= i < |tenors|
    && parse(tenors[i]) == Err(e)
    && forall j :: 0 <= j < i ==> parse(tenors[j]).Ok?
  }

  function Zip(xs: seq<real>, ys: seq<real>): (ps: seq<(real, real)>)
    requires |xs| == |ys|
    ensures |ps| == |xs|
    ensures forall i :: 0 <= i < |xs| ==> ps[i] == (xs[i], ys[i])
  {
    seq(|xs|, i requires 0 <= i < |xs| => (xs[i], ys[i]))
  }

  function Firsts(ps: seq<(real, real)>): (xs: seq<real>)
    ensures |xs| == |ps|
    ensures forall i :: 0 <= i < |ps| ==> xs[i] == ps[i].0
  {
    seq(|ps|, i requires 0 <= i < |ps| => ps[i].0)
  }

  function Seconds(ps: seq<(real, real)>): (ys: seq<real>)
    ensures |ys| == |ps|
    ensures forall i :: 0 <= i < |ps| ==> ys[i] == ps[i].1
  {
    seq(|ps|, i requires 0 <= i < |ps| => ps[i].1)
  }

  /** The sort key `lambda item: item[0]`. */
  function PillarOf(p: (real, real)): real { p.0 }

  /** `ZeroCurve.from_tenors`: parse every label, pair it with its own rate,
      sort the pairs by year fraction, and construct. */
  function FromTenors(tenors: seq<string>, zeroRates: seq<real>): (r: Result<ZeroCurve>)
    ensures |tenors| != |zeroRates| ==> r == Err(LengthMismatch)
    ensures |tenors| == |zeroRates| == 0 ==> r == Err(NoTenors)
  {
    if |tenors| != |zeroRates| then Err(LengthMismatch)
    else if |tenors| < 1 then Err(NoTenors)
    else
      var pillars :- ParseEach(tenors, Tenor.ParseTenor);
      var pairs := SortBy(Zip(pillars, zeroRates), PillarOf);
      New(Firsts(pairs), Seconds(pairs))
  }

  lemma SortedFirsts(ps: seq<(real, real)>)
    requires SortedBy(ps, PillarOf)
    ensures NonDecreasing(Firsts(ps))
  {
    var xs := Firsts(ps);
    forall i, j | 0 <= i <= j < |xs| ensures xs[i] <= xs[j] {
      assert PillarOf(ps[i]) <= PillarOf(ps[j]);
    }
  }

  /** Every first component of `ps` is one of `qs` when `qs` holds every
      pair of `ps`. */
  lemma FirstsIncluded(ps: seq<(real, real)>, qs: seq<(real, real)>)
    requires multiset(ps) <= multiset(qs)
    ensures Elements(Firsts(ps)) <= Elements(Firsts(qs))
  {
    forall x | x in Elements(Firsts(ps)) ensures x in Elements(Firsts(qs)) {
      var i :| 0 <= i < |ps| && Firsts(ps)[i] == x;
      assert ps[i] in multiset(qs);
      var k :| 0 <= k < |qs| && qs[k] == ps[i];
      assert Firsts(qs)[k] == x;
    }
  }

  /** Sorting the (pillar, rate) pairs by pillar leaves ascending pillars
      that are positive and distinct exactly when the unsorted ones are. */
  lemma SortedPairs(pillars: seq<real>, zeroRates: seq<real>)
    requires |pillars| == |zeroRates| && AllPositive(pillars)
    ensures var pairs := SortBy(Zip(pillars, zeroRates), PillarOf);
      && NonDecreasing(Firsts(pairs))
      && AllPositive(Firsts(pairs))
      && (Distinct(Firsts(pairs)) <==> Distinct(pillars))
      && Zip(Firsts(pairs), Seconds(pairs)) == pairs
  {
    var zipped := Zip(pillars, zeroRates);
    var pairs := SortBy(zipped, PillarOf);
    var ts := Firsts(pairs);
    SortedFirsts(pairs);
    FirstsIncluded(pairs, zipped);
    FirstsIncluded(zipped, pairs);
    assert Firsts(zipped) == pillars;
    assert Elements(ts) == Elements(pillars);
    forall i | 0 <= i < |ts| ensures ts[i] > 0.0 {
      assert ts[i] in Elements(pillars);
    }
    ElementsCount(ts);
    ElementsCount(pillars);
    assert Zip(ts, Seconds(pairs)) == pairs;
  }

  /** `from_tenors` succeeds exactly when every label parses and no two
      labels name the same year fraction ("12M" and "1Y" collide); the curve
      then holds each parsed label with its own rate, in ascending order. */
  lemma FromTenorsSpec(tenors: seq<string>, zeroRates: seq<real>)
    requires |tenors| == |zeroRates| >= 1
    ensures ParseEach(tenors, Tenor.ParseTenor).Err? ==> FromTenors(tenors, zeroRates) == Err(ParseEach(tenors, Tenor.ParseTenor).error)
    ensures ParseEach(tenors, Tenor.ParseTenor).Ok? ==>
      var pillars := ParseEach(tenors, Tenor.ParseTenor).value;
      var r := FromTenors(tenors, zeroRates);
      && (r.Ok? <==> Distinct(pillars))
      && (r.Err? ==> r.error == DuplicateTimes)
      && (r.Ok? ==> Valid(r.value))
      && (r.Ok? ==> multiset(Zip(r.value.times, r.value.zeroRates)) == multiset(Zip(pillars, zeroRates)))
  {
    var parsed := ParseEach(tenors, Tenor.ParseTenor);
    if parsed.Ok? {
      var pillars := parsed.value;
      assert AllPositive(pillars) by {
        forall i | 0 <= i < |pillars| ensures pillars[i] > 0.0 {
          assert Tenor.ParseTenor(tenors[i]) == Ok(pillars[i]);
        }
      }
      var pairs := SortBy(Zip(pillars, zeroRates), PillarOf);
      var ts := Firsts(pairs);
      var rs := Seconds(pairs);
      SortedPairs(pillars, zeroRates);
      NewValid(ts, rs);
      NewErrors(ts, rs);
      UniqueSortedIsStrict(ts);
      ElementsCount(ts);
      assert FromTenors(tenors, zeroRates) == New(ts, rs);
    }
  }

  /** Two labels that parse to the same year fraction are rejected. */
  lemma CollidingLabels(a: string, b: string, ra: real, rb: real)
    requires Tenor.ParseTenor(a).Ok? && Tenor.ParseTenor(b) == Tenor.ParseTenor(a)
    ensures FromTenors([a, b], [ra, rb]) == Err(DuplicateTimes)
  {
    ParseEachPair(a, b, Tenor.ParseTenor);
    DuplicatePillars([a, b], [ra, rb]);
  }

  /** Two labels that parse alike give a pillar twice. */
  lemma ParseEachPair(a: string, b: string, parse: string -> Result<real>)
    requires parse(a).Ok? && parse(b) == parse(a)
    ensures ParseEach([a, b], parse).Ok? && !Distinct(ParseEach([a, b], parse).value)
  {
    var tenors := [a, b];
    assert tenors[0] == a && tenors[1] == b;
    var parsed := ParseEach(tenors, parse);
    assert parsed.Ok?;
    assert parse(tenors[0]) == Ok(parsed.value[0]) && parse(tenors[1]) == Ok(parsed.value[1]);
  }

  /** A pillar named twice is rejected. */
  lemma DuplicatePillars(tenors: seq<string>, zeroRates: seq<real>)
    requires |tenors| == |zeroRates| >= 1
    requires ParseEach(tenors, Tenor.ParseTenor).Ok? && !Distinct(ParseEach(tenors, Tenor.ParseTenor).value)
    ensures FromTenors(tenors, zeroRates) == Err(DuplicateTimes)
  {
    FromTenorsSpec(tenors, zeroRates);
  }

  /** "12M" and "1Y" collide. */
  lemma FromTenorsSameYear()
    ensures FromTenors(["12M", "1Y"], [0.01, 0.02]) == Err(DuplicateTimes)
  {
    Tenor.ExampleTwelveMonths();
    Tenor.ExampleYear();
    CollidingLabels("12M", "1Y", 0.01, 0.02);
  }

  // ---------------------------------------------------------------------
  // Lookups

  /** What `zero_rate(t)` returns: an error for `t <= 0`, otherwise the
      interpolated rate. */
  function RateAt(c: ZeroCurve, t: real): (r: Result<real>)
    requires Valid(c)
    ensures r.Ok? <==> t > 0.0
    ensures r.Err? ==> r.error == NonPositiveLookup
  {
    if t <= 0.0 then Err(NonPositiveLookup) else Ok(Interpolate(c.times, c.zeroRates, t))
  }

  /** `zero_rate`: the three guards, then the search loop. */
  method ZeroRate(c: ZeroCurve, t: real) returns (r: Result<real>)
    requires Valid(c)
    ensures r == RateAt(c, t)
  {
    if t <= 0.0 {
      return Err(NonPositiveLookup);
    }
    if t <= c.times[0] {
      return Ok(c.zeroRates[0]);
    }
    if t >= c.times[|c.times| - 1] {
      return Ok(c.zeroRates[|c.zeroRates| - 1]);
    }
    var rate := Scan(c.times, c.zeroRates, t);
    return Ok(rate);
  }

  /** The lookup's cases: flat before the first pillar and beyond the last,
      through every pillar, and on the segment between the two pillars that
      bracket `t`. */
  lemma RateAtCases(c: ZeroCurve, t: real, i: nat)
    requires Valid(c)
    ensures t <= 0.0 <==> RateAt(c, t) == Err(NonPositiveLookup)
    ensures 0.0 < t <= c.times[0] ==> RateAt(c, t) == Ok(c.zeroRates[0])
    ensures t >= Last(c.times) ==> RateAt(c, t) == Ok(Last(c.zeroRates))
    ensures i < |c.times| ==> RateAt(c, c.times[i]) == Ok(c.zeroRates[i])
    ensures 1 <= i < |c.times| && c.times[i - 1] < t <= c.times[i] ==>
      && RateAt(c, t) == Ok(Lerp(c.times[i - 1], c.zeroRates[i - 1], c.times[i], c.zeroRates[i], t))
      && Between(RateAt(c, t).value, c.zeroRates[i - 1], c.zeroRates[i])
  {
    InterpolateCases(c.times, c.zeroRates, t, i);
    if i < |c.times| {
      InterpolateAtPillar(c.times, c.zeroRates, i);
    }
    if 1 <= i < |c.times| && c.times[i - 1] < t <= c.times[i] {
      InterpolateBetween(c.times, c.zeroRates, t, i);
    }
  }

  /** `df(t)`: the continuously-compounded discount factor exp(-r(t) t). */
  function Df(exp: real -> real, c: ZeroCurve, t: real): (r: Result<real>)
    requires Valid(c)
    ensures r.Ok? <==> t > 0.0
  {
    if t <= 0.0 then Err(NonPositiveLookup)
    else Ok(Discount(exp, Interpolate(c.times, c.zeroRates, t), t))
  }

  /** At every positive maturity the discount factor is exp(-r(t) t), which
      is positive, and at most one where the rate is not negative. */
  lemma DfValue(exp: real -> real, c: ZeroCurve, t: real)
    requires Valid(c) && IsExp(exp) && t > 0.0
    ensures Df(exp, c, t).value == Discount(exp, RateAt(c, t).value, t)
    ensures Df(exp, c, t).value > 0.0
    ensures RateAt(c, t).value >= 0.0 ==> Df(exp, c, t).value <= 1.0
  {
    DiscountPositive(exp, RateAt(c, t).value, t);
    if RateAt(c, t).value >= 0.0 {
      DiscountAtMostOne(exp, RateAt(c, t).value, t);
    }
  }

  /** `discount_factor`, the alias of `df`. */
  function DiscountFactor(exp: real -> real, c: ZeroCurve, t: real): (r: Result<real>)
    requires Valid(c)
    ensures r == Df(exp, c, t)
  {
    Df(exp, c, t)
  }

  /** `shifted(bump_bp)`: the same pillars with every rate raised by
      bump_bp * 1e-4. The source builds it through the constructor, whose
      checks it always passes (`ShiftedPassesChecks`). */
  function Shifted(c: ZeroCurve, bumpBp: real): (s: ZeroCurve)
    requires Valid(c)
    ensures Valid(s)
    ensures s.times == c.times
    ensures |s.zeroRates| == |c.zeroRates|
    ensures forall i :: 0 <= i < |c.zeroRates| ==> s.zeroRates[i] == c.zeroRates[i] + bumpBp * 0.0001
  {
    ZeroCurve(c.times, AddToAll(c.zeroRates, bumpBp * 0.0001))
  }

  /** The constructor accepts the shifted pillars and rates. */
  lemma ShiftedPassesChecks(c: ZeroCurve, bumpBp: real)
    requires Valid(c)
    ensures New(c.times, AddToAll(c.zeroRates, bumpBp * 0.0001)) == Ok(Shifted(c, bumpBp))
  {
    NewValid(c.times, AddToAll(c.zeroRates, bumpBp * 0.0001));
  }

  /** Every looked-up rate of the shifted curve is raised by the shift. */
  lemma ShiftedRate(c: ZeroCurve, bumpBp: real, t: real)
    requires Valid(c) && t > 0.0
    ensures RateAt(Shifted(c, bumpBp), t) == Ok(RateAt(c, t).value + bumpBp * 0.0001)
  {
    InterpolateShift(c.times, c.zeroRates, bumpBp * 0.0001, t);
    assert Shifted(c, bumpBp).zeroRates == AddToAll(c.zeroRates, bumpBp * 0.0001);
  }

  /** The opposite shift restores the rates. */
  lemma ShiftedRoundTrip(c: ZeroCurve, bumpBp: real)
    requires Valid(c)
    ensures Shifted(Shifted(c, bumpBp), -bumpBp) == c
  {
    var back := Shifted(Shifted(c, bumpBp), -bumpBp);
    assert back.zeroRates == c.zeroRates by {
      forall i | 0 <= i < |c.zeroRates| ensures back.zeroRates[i] == c.zeroRates[i] {
        assert -bumpBp * 0.0001 == -(bumpBp * 0.0001);
      }
    }
  }

  /** A zero shift changes nothing. */
  lemma ShiftedZero(c: ZeroCurve)
    requires Valid(c)
    ensures Shifted(c, 0.0) == c
  {
    assert Shifted(c, 0.0).zeroRates == c.zeroRates;
  }

  /** Shifting the curve by `s` scales every discount factor by exp(-s t). */
  lemma DfShifted(exp: real -> real, c: ZeroCurve, bumpBp: real, t: real)
    requires Valid(c) && IsExp(exp) && t > 0.0
    ensures Df(exp, Shifted(c, bumpBp), t).value
      == Df(exp, c, t).value * Discount(exp, bumpBp * 0.0001, t)
  {
    ShiftedRate(c, bumpBp, t);
    DfValue(exp, Shifted(c, bumpBp), t);
    DfValue(exp, c, t);
    DiscountAdd(exp, RateAt(c, t).value, bumpBp * 0.0001, t);
  }
}
