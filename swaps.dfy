/** The vanilla fixed-versus-floating swap pricer of src/fm_toolkit/swaps.py,
    on the curves of FmCurves. */
module Swaps {
  import opened Results
  import opened Exponential
  import opened Pillars
  import opened FmCurves

  /** `VanillaSwap`. */
  datatype VanillaSwap = VanillaSwap(notional: real, fixedRate: real, maturityYears: real,
                                     paymentsPerYear: int, payFixed: bool)

  predicate ValidSwap(s: VanillaSwap) {
    s.notional > 0.0 && s.fixedRate >= 0.0 && s.maturityYears > 0.0 && s.paymentsPerYear > 0
  }

  /** The constructor's checks, in the source's order. */
  function NewSwap(notional: real, fixedRate: real, maturityYears: real,
                   paymentsPerYear: int := 1, payFixed: bool := true): (r: Result<VanillaSwap>)
    ensures r.Ok? <==> ValidSwap(VanillaSwap(notional, fixedRate, maturityYears, paymentsPerYear, payFixed))
    ensures r.Ok? ==> r.value == VanillaSwap(notional, fixedRate, maturityYears, paymentsPerYear, payFixed)
    ensures notional <= 0.0 ==> r == Err(NonPositiveNotional)
    ensures notional > 0.0 && fixedRate < 0.0 ==> r == Err(NegativeFixedRate)
    ensures notional > 0.0 && fixedRate >= 0.0 && maturityYears <= 0.0 ==> r == Err(NonPositiveMaturity)
    ensures notional > 0.0 && fixedRate >= 0.0 && maturityYears > 0.0 && paymentsPerYear <= 0
      ==> r == Err(NonPositiveFrequency)
  {
    if notional <= 0.0 then Err(NonPositiveNotional)
    else if fixedRate < 0.0 then Err(NegativeFixedRate)
    else if maturityYears <= 0.0 then Err(NonPositiveMaturity)
    else if paymentsPerYear <= 0 then Err(NonPositiveFrequency)
    else Ok(VanillaSwap(notional, fixedRate, maturityYears, paymentsPerYear, payFixed))
  }

  function Abs(x: real): real { if x < 0.0 then -x else x }

  /** Python's `round` on a float: to the nearest integer, ties to even. */
  function Round(x: real): (r: int)
    ensures -0.5 <= r as real - x <= 0.5
    ensures Abs(r as real - x) == 0.5 ==> r % 2 == 0
  {
    var f := x.Floor;
    var d := x - f as real;
    if d < 0.5 then f
    else if d > 0.5 then f + 1
    else if f % 2 == 0 then f
    else f + 1
  }

  /** Rounding is determined by its contract: the nearest integer, and the
      even one of two equally near. */
  lemma RoundUnique(x: real, k: int)
    requires -0.5 <= k as real - x <= 0.5
    requires Abs(k as real - x) == 0.5 ==> k % 2 == 0
    ensures Round(x) == k
  {
  }

  lemma RoundInteger(k: int)
    ensures Round(k as real) == k
  {
    RoundUnique(k as real, k);
  }

  /** How far `maturity_years * payments_per_year` may sit from an integer. */
  const Tolerance: real := 0.000000001

  /** `round(maturity_years * payments_per_year)`. */
  function Periods(maturityYears: real, paymentsPerYear: int): int {
    Round(maturityYears * paymentsPerYear as real)
  }

  /** `payment_times`: the product must be within the tolerance of its
      rounding, and the schedule is 1/n, 2/n, ..., periods/n. */
  function PaymentTimes(maturityYears: real, paymentsPerYear: int): (r: Result<seq<real>>)
    ensures var x := maturityYears * paymentsPerYear as real;
      r.Err? <==> Abs(Periods(maturityYears, paymentsPerYear) as real - x) > Tolerance
    ensures r.Err? ==> r.error == NonIntegerPeriods
    ensures r.Ok? ==> var periods := Periods(maturityYears, paymentsPerYear);
      && |r.value| == (if periods > 0 then periods else 0)
      && (r.value != [] ==> paymentsPerYear != 0)
      && forall i :: 0 <= i < |r.value| ==> r.value[i] == (i + 1) as real / paymentsPerYear as real
  {
    var x := maturityYears * paymentsPerYear as real;
    var periods := Periods(maturityYears, paymentsPerYear);
    if Abs(periods as real - x) > Tolerance then Err(NonIntegerPeriods)
    else if periods <= 0 then Ok([])
    else
      assert paymentsPerYear != 0 by {
        if paymentsPerYear == 0 {
          RoundInteger(0);
        }
      }
      Ok(Schedule(periods, paymentsPerYear as real))
  }

  /** [i / n for i in range(1, periods + 1)]. */
  function Schedule(periods: nat, n: real): (ts: seq<real>)
    requires n != 0.0
    ensures |ts| == periods
    ensures forall i :: 0 <= i < periods ==> ts[i] == (i + 1) as real / n
  {
    seq(periods, i requires 0 <= i < periods => (i + 1) as real / n)
  }

  /** On a positive frequency a schedule that exists has `round(m n)`
      dates i/n, positive and strictly increasing; the last lies within the
      tolerance of the maturity, and is the maturity when m n is a whole
      number. */
  lemma PaymentTimesSpec(maturityYears: real, paymentsPerYear: int)
    requires paymentsPerYear > 0 && PaymentTimes(maturityYears, paymentsPerYear).Ok?
    ensures var ts := PaymentTimes(maturityYears, paymentsPerYear).value;
      var n := paymentsPerYear as real;
      var periods := Periods(maturityYears, paymentsPerYear);
      && |ts| == (if periods > 0 then periods else 0)
      && (forall i :: 0 <= i < |ts| ==> ts[i] == (i + 1) as real / n)
      && AllPositive(ts) && StrictlyIncreasing(ts)
      && (ts != [] ==> Abs(Last(ts) - maturityYears) <= Tolerance / n)
      && (ts != [] && maturityYears * paymentsPerYear as real == periods as real ==> Last(ts) == maturityYears)
  {
    var ts := PaymentTimes(maturityYears, paymentsPerYear).value;
    var n := paymentsPerYear as real;
    var periods := Periods(maturityYears, paymentsPerYear);
    ScheduleSpec(ts, periods, n, maturityYears);
  }

  /** The dates 1/n, ..., periods/n, for a period count within the
      tolerance of m n, are positive and increasing and end near m. */
  lemma ScheduleSpec(ts: seq<real>, periods: int, n: real, m: real)
    requires n > 0.0 && |ts| == (if periods > 0 then periods else 0)
    requires forall i :: 0 <= i < |ts| ==> ts[i] == (i + 1) as real / n
    requires Abs(periods as real - m * n) <= Tolerance
    ensures AllPositive(ts) && StrictlyIncreasing(ts)
    ensures ts != [] ==> Abs(Last(ts) - m) <= Tolerance / n
    ensures ts != [] && m * n == periods as real ==> Last(ts) == m
  {
    if ts != [] {
      LastDate(ts, periods, n);
      Quotient(periods as real, m, n);
    }
    ScheduleOrdered(ts, n);
  }

  /** The last of `periods` dates i/n is periods/n. */
  lemma LastDate(ts: seq<real>, periods: int, n: real)
    requires |ts| == periods > 0 && n != 0.0
    requires forall i :: 0 <= i < |ts| ==> ts[i] == (i + 1) as real / n
    ensures Last(ts) == periods as real / n
  {
    assert ts[periods - 1] == ((periods - 1) + 1) as real / n;
  }

  /** Dates (i + 1) / n for a positive n are positive and increasing. */
  lemma ScheduleOrdered(ts: seq<real>, n: real)
    requires n > 0.0
    requires forall i :: 0 <= i < |ts| ==> ts[i] == (i + 1) as real / n
    ensures AllPositive(ts) && StrictlyIncreasing(ts)
  {
    forall i, j | 0 <= i < j < |ts| ensures ts[i] < ts[j] {
      DivMonotone((i + 1) as real, (j + 1) as real, n);
    }
    forall i | 0 <= i < |ts| ensures ts[i] > 0.0 {
      DivMonotone(0.0, (i + 1) as real, n);
    }
  }

  lemma DivMonotone(a: real, b: real, n: real)
    requires a < b && n > 0.0
    ensures a / n < b / n
  {
  }

  lemma Quotient(p: real, m: real, n: real)
    requires n > 0.0 && Abs(p - m * n) <= Tolerance
    ensures Abs(p / n - m) <= Tolerance / n
    ensures p == m * n ==> p / n == m
  {
    assert p / n - m == (p - m * n) / n;
  }

  lemma ExampleSemiAnnual()
    ensures PaymentTimes(5.0, 2) == Ok([0.5, 1.0, 1.5, 2.0, 2.5, 3.0, 3.5, 4.0, 4.5, 5.0])
  {
    assert 5.0 * 2 as real == 10 as real;
    RoundInteger(10);
    var ts := PaymentTimes(5.0, 2).value;
    assert |ts| == 10;
    forall i | 0 <= i < 10 ensures ts[i] == (i + 1) as real / 2.0 {
    }
    assert ts == [0.5, 1.0, 1.5, 2.0, 2.5, 3.0, 3.5, 4.0, 4.5, 5.0];
  }

  lemma ExampleThirds()
    ensures PaymentTimes(1.0, 3) == Ok([1.0 / 3.0, 2.0 / 3.0, 1.0])
  {
    assert 1.0 * 3 as real == 3 as real;
    RoundInteger(3);
    var ts := PaymentTimes(1.0, 3).value;
    assert |ts| == 3;
    assert ts == [1.0 / 3.0, 2.0 / 3.0, 1.0];
  }

  lemma ExampleFractional()
    ensures PaymentTimes(0.3, 1) == Err(NonIntegerPeriods)
    ensures PaymentTimes(1.25, 2) == Err(NonIntegerPeriods)
  {
    RoundUnique(0.3, 0);
    RoundUnique(2.5, 2);
  }

  /** `sum(accrual * curve.discount_factor(t) for t in times)`: the first
      date the curve cannot discount raises. */
  function Annuity(exp: real -> real, c: ZeroCurve, times: seq<real>, accrual: real): (r: Result<real>)
    requires Valid(c)
    ensures r.Ok? <==> AllPositive(times)
    ensures r.Err? ==> r.error == NonPositiveLookup
    decreases |times|
  {
    if times == [] then Ok(0.0)
    else
      var df := DiscountFactor(exp, c, times[0]);
      if df.Err? then Err(df.error)
      else
        var rest := Annuity(exp, c, times[1..], accrual);
        if rest.Err? then Err(rest.error) else Ok(accrual * df.value + rest.value)
  }

  /** A schedule with a date has a positive annuity. */
  lemma {:induction false} AnnuityPositive(exp: real -> real, c: ZeroCurve, times: seq<real>, accrual: real)
    requires Valid(c) && IsExp(exp) && accrual > 0.0 && AllPositive(times) && times != []
    ensures Annuity(exp, c, times, accrual).value > 0.0
    decreases |times|
  {
    DfValue(exp, c, times[0]);
    assert accrual * Df(exp, c, times[0]).value > 0.0;
    if |times| > 1 {
      AnnuityPositive(exp, c, times[1..], accrual);
    }
  }

  /** Raising the curve does not raise the annuity. */
  lemma AnnuityShifted(exp: real -> real, c: ZeroCurve, bumpBp: real, times: seq<real>, accrual: real)
    requires Valid(c) && IsExp(exp) && accrual > 0.0 && bumpBp > 0.0 && AllPositive(times)
    ensures Annuity(exp, Shifted(c, bumpBp), times, accrual).value <= Annuity(exp, c, times, accrual).value
  {
    UnitAnnuityShifted(exp, c, bumpBp, times);
    AnnuityBelow(exp, Shifted(c, bumpBp), c, times, accrual);
  }

  /** Whichever curve has the smaller sum of discount factors has the smaller
      annuity. */
  lemma AnnuityBelow(exp: real -> real, lower: ZeroCurve, c: ZeroCurve, times: seq<real>, accrual: real)
    requires Valid(lower) && Valid(c) && AllPositive(times) && accrual > 0.0
    requires Annuity(exp, lower, times, 1.0).value <= Annuity(exp, c, times, 1.0).value
    ensures Annuity(exp, lower, times, accrual).value <= Annuity(exp, c, times, accrual).value
  {
    var a1, s1 := AnnuityScaled(exp, lower, times, accrual);
    var a0, s0 := AnnuityScaled(exp, c, times, accrual);
    ScaledMonotone(accrual, s1, s0, a1, a0);
  }

  /** Every term carries the accrual factor, so the annuity is the accrual
      times the plain sum of discount factors. */
  lemma {:induction false} AnnuityScaled(exp: real -> real, c: ZeroCurve, times: seq<real>, accrual: real)
    returns (annuity: real, unit: real)
    requires Valid(c) && AllPositive(times)
    ensures annuity == Annuity(exp, c, times, accrual).value
    ensures unit == Annuity(exp, c, times, 1.0).value
    ensures annuity == accrual * unit
    decreases |times|
  {
    annuity := Annuity(exp, c, times, accrual).value;
    unit := Annuity(exp, c, times, 1.0).value;
    if times != [] {
      assert AllPositive(times[1..]);
      var _, _ := AnnuityScaled(exp, c, times[1..], accrual);
    }
  }

  /** The plain sum of discount factors falls when the curve is raised. */
  lemma {:induction false} UnitAnnuityShifted(exp: real -> real, c: ZeroCurve, bumpBp: real, times: seq<real>)
    requires Valid(c) && IsExp(exp) && bumpBp > 0.0 && AllPositive(times)
    ensures Annuity(exp, Shifted(c, bumpBp), times, 1.0).value <= Annuity(exp, c, times, 1.0).value
    decreases |times|
  {
    if times != [] {
      assert AllPositive(times[1..]);
      DfShiftedBelow(exp, c, bumpBp, times[0]);
      UnitAnnuityShifted(exp, c, bumpBp, times[1..]);
    }
  }

  lemma ScaledMonotone(a: real, x: real, y: real, ax: real, ay: real)
    requires a > 0.0 && x <= y && ax == a * x && ay == a * y
    ensures ax <= ay
  {
  }

  /** `accrual = 1.0 / payments_per_year`. */
  function Accrual(paymentsPerYear: int): real
    requires paymentsPerYear != 0
  {
    1.0 / paymentsPerYear as real
  }

  /** `par_swap_rate`: the schedule, the accrual 1/n, the annuity, the
      discount factor to maturity, then (1 - DF(T)) / annuity. */
  function ParSwapRate(exp: real -> real, c: ZeroCurve, maturityYears: real, paymentsPerYear: int := 1): (r: Result<real>)
    requires Valid(c)
    ensures r.Err? ==> r.error in {NonIntegerPeriods, DivisionByZero, NonPositiveLookup}
  {
    var times := PaymentTimes(maturityYears, paymentsPerYear);
    if times.Err? then Err(times.error)
    else if paymentsPerYear == 0 then Err(DivisionByZero)
    else
      var annuity := Annuity(exp, c, times.value, Accrual(paymentsPerYear));
      if annuity.Err? then Err(annuity.error)
      else
        var dfT := DiscountFactor(exp, c, maturityYears);
        if dfT.Err? then Err(dfT.error)
        else if annuity.value == 0.0 then Err(DivisionByZero)
        else Ok(ParRate(dfT.value, annuity.value))
  }

  /** (1 - DF(T)) / annuity. */
  function ParRate(dfT: real, annuity: real): real
    requires annuity != 0.0
  {
    (1.0 - dfT) / annuity
  }

  /** N K A, the fixed leg on annuity A. */
  function FixedValue(notional: real, fixedRate: real, annuity: real): real {
    notional * fixedRate * annuity
  }

  /** N (1 - DF(T)), the floating leg. */
  function FloatingValue(notional: real, dfT: real): real {
    notional * (1.0 - dfT)
  }

  /** `fixed_leg_pv`: N K times the annuity. */
  function FixedLegPv(exp: real -> real, notional: real, fixedRate: real, c: ZeroCurve,
                      maturityYears: real, paymentsPerYear: int): (r: Result<real>)
    requires Valid(c)
    ensures PaymentTimes(maturityYears, paymentsPerYear).Err? ==> r == Err(NonIntegerPeriods)
    ensures r.Err? ==> r.error in {NonIntegerPeriods, DivisionByZero, NonPositiveLookup}
  {
    var times := PaymentTimes(maturityYears, paymentsPerYear);
    if times.Err? then Err(times.error)
    else if paymentsPerYear == 0 then Err(DivisionByZero)
    else
      var annuity := Annuity(exp, c, times.value, Accrual(paymentsPerYear));
      if annuity.Err? then Err(annuity.error)
      else Ok(FixedValue(notional, fixedRate, annuity.value))
  }

  /** `floating_leg_pv`: N (1 - DF(T)). */
  function FloatingLegPv(exp: real -> real, notional: real, c: ZeroCurve, maturityYears: real): (r: Result<real>)
    requires Valid(c)
    ensures r.Ok? <==> maturityYears > 0.0
    ensures r.Err? ==> r.error == NonPositiveLookup
  {
    var dfT := DiscountFactor(exp, c, maturityYears);
    if dfT.Err? then Err(dfT.error) else Ok(FloatingValue(notional, dfT.value))
  }

  /** `swap_pv`: the fixed leg is priced first; the payer of fixed holds
      floating minus fixed, the receiver fixed minus floating. */
  function SwapPv(exp: real -> real, s: VanillaSwap, c: ZeroCurve): (r: Result<real>)
    requires Valid(c)
    ensures r.Err? ==> r.error in {NonIntegerPeriods, DivisionByZero, NonPositiveLookup}
  {
    var fixed := FixedLegPv(exp, s.notional, s.fixedRate, c, s.maturityYears, s.paymentsPerYear);
    if fixed.Err? then Err(fixed.error)
    else
      var floating := FloatingLegPv(exp, s.notional, c, s.maturityYears);
      if floating.Err? then Err(floating.error)
      else if s.payFixed then Ok(floating.value - fixed.value)
      else Ok(fixed.value - floating.value)
  }

  /** `swap_pv01`: the PV on the shifted curve less the PV on the curve. */
  function SwapPv01(exp: real -> real, s: VanillaSwap, c: ZeroCurve, bumpBp: real := 1.0): (r: Result<real>)
    requires Valid(c)
    ensures r.Err? ==> r.error in {NonIntegerPeriods, DivisionByZero, NonPositiveLookup}
  {
    var bumped := SwapPv(exp, s, Shifted(c, bumpBp));
    if bumped.Err? then Err(bumped.error)
    else
      var base := SwapPv(exp, s, c);
      if base.Err? then Err(base.error) else Ok(bumped.value - base.value)
  }

  /** On a positive frequency and a schedule that exists, the annuity
      exists and the fixed leg is N K times it. */
  lemma FixedLegValue(exp: real -> real, notional: real, fixedRate: real, c: ZeroCurve,
                      maturityYears: real, paymentsPerYear: int)
    requires Valid(c) && paymentsPerYear > 0 && PaymentTimes(maturityYears, paymentsPerYear).Ok?
    ensures var a := Annuity(exp, c, PaymentTimes(maturityYears, paymentsPerYear).value, Accrual(paymentsPerYear));
      && a.Ok?
      && FixedLegPv(exp, notional, fixedRate, c, maturityYears, paymentsPerYear) == Ok(FixedValue(notional, fixedRate, a.value))
  {
    PaymentTimesSpec(maturityYears, paymentsPerYear);
  }

  /** At a positive maturity the floating leg is N (1 - DF(T)); otherwise
      it fails on the lookup. */
  lemma FloatingLegValue(exp: real -> real, notional: real, c: ZeroCurve, maturityYears: real)
    requires Valid(c)
    ensures maturityYears > 0.0 ==>
      FloatingLegPv(exp, notional, c, maturityYears) == Ok(FloatingValue(notional, Df(exp, c, maturityYears).value))
    ensures maturityYears <= 0.0 ==> FloatingLegPv(exp, notional, c, maturityYears) == Err(NonPositiveLookup)
  {
  }

  /** A valid swap prices exactly when its schedule exists; it then has
      fixed leg N K A and floating leg N (1 - DF(T)), with A the annuity of
      the schedule at accrual 1/n. */
  lemma SwapPvValue(exp: real -> real, s: VanillaSwap, c: ZeroCurve)
    requires Valid(c) && ValidSwap(s)
    ensures var times := PaymentTimes(s.maturityYears, s.paymentsPerYear);
      var pv := SwapPv(exp, s, c);
      && (times.Err? ==> pv == Err(NonIntegerPeriods))
      && (times.Ok? ==>
            var a := Annuity(exp, c, times.value, Accrual(s.paymentsPerYear));
            var fixed := FixedValue(s.notional, s.fixedRate, a.value);
            var floating := FloatingValue(s.notional, Df(exp, c, s.maturityYears).value);
            && a.Ok? && pv.Ok?
            && pv.value == if s.payFixed then floating - fixed else fixed - floating)
  {
    var times := PaymentTimes(s.maturityYears, s.paymentsPerYear);
    FloatingLegValue(exp, s.notional, c, s.maturityYears);
    if times.Ok? {
      FixedLegValue(exp, s.notional, s.fixedRate, c, s.maturityYears, s.paymentsPerYear);
    }
  }

  /** Swapping the direction negates the PV and keeps every error. */
  lemma PayerReceiver(exp: real -> real, s: VanillaSwap, c: ZeroCurve)
    requires Valid(c)
    ensures var payer := SwapPv(exp, s.(payFixed := true), c);
      var receiver := SwapPv(exp, s.(payFixed := false), c);
      && (payer.Err? ==> receiver == payer)
      && (payer.Ok? ==> receiver.Ok? && receiver.value == -payer.value)
  {
  }

  /** A swap struck at the par rate is worth exactly zero to either side. */
  lemma ParRateZeroPv(exp: real -> real, c: ZeroCurve, notional: real, maturityYears: real,
                      paymentsPerYear: int, payFixed: bool)
    requires Valid(c) && ParSwapRate(exp, c, maturityYears, paymentsPerYear).Ok?
    ensures var par := ParSwapRate(exp, c, maturityYears, paymentsPerYear).value;
      SwapPv(exp, VanillaSwap(notional, par, maturityYears, paymentsPerYear, payFixed), c) == Ok(0.0)
  {
    var times := PaymentTimes(maturityYears, paymentsPerYear).value;
    var a := Annuity(exp, c, times, Accrual(paymentsPerYear)).value;
    var dfT := Df(exp, c, maturityYears).value;
    var par := ParSwapRate(exp, c, maturityYears, paymentsPerYear).value;
    assert a != 0.0 && par == ParRate(dfT, a);
    assert FixedLegPv(exp, notional, par, c, maturityYears, paymentsPerYear) == Ok(FixedValue(notional, par, a));
    FloatingLegValue(exp, notional, c, maturityYears);
    AtPar(notional, dfT, a);
  }

  /** On a positive frequency and a non-empty schedule the maturity is
      positive, the annuity A is positive, and the par rate is
      (1 - DF(T)) / A. */
  lemma ParSwapRateValue(exp: real -> real, c: ZeroCurve, maturityYears: real, paymentsPerYear: int)
    requires IsExp(exp) && Valid(c) && paymentsPerYear > 0
    requires PaymentTimes(maturityYears, paymentsPerYear).Ok? && PaymentTimes(maturityYears, paymentsPerYear).value != []
    ensures maturityYears > 0.0
    ensures var a := Annuity(exp, c, PaymentTimes(maturityYears, paymentsPerYear).value, Accrual(paymentsPerYear));
      && a.Ok? && a.value > 0.0
      && ParSwapRate(exp, c, maturityYears, paymentsPerYear) == Ok((1.0 - Df(exp, c, maturityYears).value) / a.value)
  {
    var ts := PaymentTimes(maturityYears, paymentsPerYear).value;
    var n := paymentsPerYear as real;
    PaymentTimesSpec(maturityYears, paymentsPerYear);
    assert ts[0] == 1.0 / n;
    assert ts[0] <= Last(ts);
    DivMonotone(Tolerance, 1.0, n);
    assert Last(ts) - maturityYears <= Tolerance / n;
    DivMonotone(0.0, 1.0, n);
    AnnuityPositive(exp, c, ts, Accrual(paymentsPerYear));
  }

  /** The ways `par_swap_rate` fails: a fractional period count; an empty
      schedule, which divides by zero unless the maturity lookup fails first;
      and a negative frequency, whose dates cannot be discounted. */
  lemma ParSwapRateFails(exp: real -> real, c: ZeroCurve, maturityYears: real, paymentsPerYear: int)
    requires Valid(c)
    ensures var times := PaymentTimes(maturityYears, paymentsPerYear);
      var r := ParSwapRate(exp, c, maturityYears, paymentsPerYear);
      && (times.Err? ==> r == Err(NonIntegerPeriods))
      && (times == Ok([]) ==>
            r == if paymentsPerYear != 0 && maturityYears <= 0.0 then Err(NonPositiveLookup) else Err(DivisionByZero))
      && (times.Ok? && times.value != [] && paymentsPerYear < 0 ==> r == Err(NonPositiveLookup))
  {
    var times := PaymentTimes(maturityYears, paymentsPerYear);
    if times.Ok? && times.value != [] && paymentsPerYear < 0 {
      var n := paymentsPerYear as real;
      assert times.value[0] == 1.0 / n;
      NegativeReciprocal(n);
      assert !AllPositive(times.value);
    }
  }

  lemma NegativeReciprocal(n: real)
    requires n < 0.0
    ensures 1.0 / n < 0.0
  {
  }

  /** The five-year semi-annual swap of the tests has a par rate. */
  lemma ExampleParRateExists(exp: real -> real, c: ZeroCurve)
    requires IsExp(exp) && Valid(c)
    ensures ParSwapRate(exp, c, 5.0, 2).Ok?
  {
    ExampleSemiAnnual();
    ParSwapRateValue(exp, c, 5.0, 2);
  }

  /** At the par rate the fixed leg equals the floating leg. */
  lemma AtPar(notional: real, dfT: real, annuity: real)
    requires annuity != 0.0
    ensures FixedValue(notional, ParRate(dfT, annuity), annuity) == FloatingValue(notional, dfT)
  {
  }

  /** Raising the curve strictly lowers every discount factor. */
  lemma DfShiftedBelow(exp: real -> real, c: ZeroCurve, bumpBp: real, t: real)
    requires IsExp(exp) && Valid(c) && bumpBp > 0.0 && t > 0.0
    ensures Df(exp, Shifted(c, bumpBp), t).value < Df(exp, c, t).value
  {
    DfShifted(exp, c, bumpBp, t);
    DfValue(exp, c, t);
    DiscountBelowOne(exp, bumpBp * 0.0001, t);
    ScaledStrictlyBelow(Df(exp, c, t).value, Discount(exp, bumpBp * 0.0001, t), Df(exp, Shifted(c, bumpBp), t).value);
  }

  lemma ScaledStrictlyBelow(d: real, q: real, dq: real)
    requires d > 0.0 && q < 1.0 && dq == d * q
    ensures dq < d
  {
  }

  /** A positive parallel bump raises the PV of the payer of fixed. */
  lemma PayerPv01Positive(exp: real -> real, s: VanillaSwap, c: ZeroCurve, bumpBp: real)
    requires IsExp(exp) && Valid(c) && ValidSwap(s) && s.payFixed && bumpBp > 0.0
    requires PaymentTimes(s.maturityYears, s.paymentsPerYear).Ok?
    ensures var pv01 := SwapPv01(exp, s, c, bumpBp);
      pv01.Ok? && pv01.value > 0.0
  {
    var shifted := Shifted(c, bumpBp);
    var times := PaymentTimes(s.maturityYears, s.paymentsPerYear).value;
    var accrual := Accrual(s.paymentsPerYear);
    var t := s.maturityYears;
    var a0 := Annuity(exp, c, times, accrual).value;
    var a1 := Annuity(exp, shifted, times, accrual).value;
    var d0 := Df(exp, c, t).value;
    var d1 := Df(exp, shifted, t).value;
    assert SwapPv(exp, s, c) == Ok(FloatingValue(s.notional, d0) - FixedValue(s.notional, s.fixedRate, a0)) by {
      SwapPvValue(exp, s, c);
    }
    assert SwapPv(exp, s, shifted) == Ok(FloatingValue(s.notional, d1) - FixedValue(s.notional, s.fixedRate, a1)) by {
      SwapPvValue(exp, s, shifted);
    }
    assert a1 <= a0 by {
      PaymentTimesSpec(s.maturityYears, s.paymentsPerYear);
      AnnuityShifted(exp, c, bumpBp, times, accrual);
    }
    assert d1 < d0 by {
      DfShiftedBelow(exp, c, bumpBp, t);
    }
    PayerGain(s.notional, s.fixedRate, d0, d1, a0, a1);
  }

  lemma PayerGain(n: real, k: real, d0: real, d1: real, a0: real, a1: real)
    requires n > 0.0 && k >= 0.0 && d1 < d0 && a1 <= a0
    ensures (FloatingValue(n, d1) - FixedValue(n, k, a1)) - (FloatingValue(n, d0) - FixedValue(n, k, a0)) > 0.0
  {
    assert n * k * a1 <= n * k * a0 by {
      assert n * k >= 0.0;
    }
    assert FloatingValue(n, d1) - FloatingValue(n, d0) == n * (d0 - d1);
    assert n * (d0 - d1) > 0.0;
  }

  /** A positive parallel bump raises the payer's PV and lowers the
      receiver's by the same amount. */
  lemma Pv01Sign(exp: real -> real, s: VanillaSwap, c: ZeroCurve, bumpBp: real)
    requires IsExp(exp) && Valid(c) && ValidSwap(s) && bumpBp > 0.0
    requires PaymentTimes(s.maturityYears, s.paymentsPerYear).Ok?
    ensures var payer := SwapPv01(exp, s.(payFixed := true), c, bumpBp);
      var receiver := SwapPv01(exp, s.(payFixed := false), c, bumpBp);
      && payer.Ok? && receiver.Ok?
      && payer.value > 0.0 && receiver.value < 0.0 && receiver.value == -payer.value
  {
    PayerPv01Positive(exp, s.(payFixed := true), c, bumpBp);
    PayerReceiver(exp, s, c);
    PayerReceiver(exp, s, Shifted(c, bumpBp));
  }
}
