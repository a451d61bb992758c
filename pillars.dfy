/** Sequence facts and the linear interpolation rule shared by the two
    `ZeroCurve` classes (src/fm_toolkit/curves.py and src/ing_fm/curves.py
    hold the same `zero_rate` code). */
module Pillars {

  function Last(s: seq<real>): real
    requires |s| > 0
  {
    s[|s| - 1]
  }

  predicate AllPositive(s: seq<real>) {
    forall i :: 0 <= i < |s| ==> s[i] > 0.0
  }

  predicate NonDecreasing(s: seq<real>) {
    forall i, j :: 0 <= i <= j < |s| ==> s[i] <= s[j]
  }

  predicate StrictlyIncreasing(s: seq<real>) {
    forall i, j :: 0 <= i < j < |s| ==> s[i] < s[j]
  }

  /** `set(s)`. */
  function Elements(s: seq<real>): set<real> {
    set x | x in s
  }

  // ---------------------------------------------------------------------
  // Python's `sorted`, as a stable insertion sort on a key

  predicate SortedBy<T>(s: seq<T>, key: T -> real) {
    forall i, j :: 0 <= i <= j < |s| ==> key(s[i]) <= key(s[j])
  }

  /** Insert `x` before the first element whose key is not smaller, so that
      it precedes the elements of equal key that come after it in the input. */
  function InsertBy<T>(x: T, s: seq<T>, key: T -> real): (r: seq<T>)
    ensures multiset(r) == multiset(s) + multiset{x}
    ensures |r| == |s| + 1
    ensures r[0] == x || (s != [] && r[0] == s[0])
    decreases |s|
  {
    if s == [] || key(x) <= key(s[0]) then
      assert ([x] + s)[1..] == s;
      [x] + s
    else
      var rest := InsertBy(x, s[1..], key);
      assert s == [s[0]] + s[1..];
      [s[0]] + rest
  }

  lemma {:induction false} InsertBySorted<T>(x: T, s: seq<T>, key: T -> real)
    requires SortedBy(s, key)
    ensures SortedBy(InsertBy(x, s, key), key)
    decreases |s|
  {
    if s != [] && !(key(x) <= key(s[0])) {
      var rest := InsertBy(x, s[1..], key);
      InsertBySorted(x, s[1..], key);
      assert InsertBy(x, s, key) == [s[0]] + rest;
      assert key(s[0]) <= key(rest[0]);
    }
  }

  /** `sorted(s, key=key)`: ordered by key and a permutation of `s`. */
  function SortBy<T>(s: seq<T>, key: T -> real): (r: seq<T>)
    ensures SortedBy(r, key)
    ensures multiset(r) == multiset(s)
    ensures |r| == |s|
    decreases |s|
  {
    if s == [] then []
    else
      assert s == [s[0]] + s[1..];
      InsertBySorted(s[0], SortBy(s[1..], key), key);
      InsertBy(s[0], SortBy(s[1..], key), key)
  }

  function Identity(x: real): real { x }

  /** `sorted(times)` on plain numbers. */
  function Sorted(s: seq<real>): seq<real> {
    SortBy(s, Identity)
  }

  /** `list(times) == sorted(times)` exactly when the times never decrease. */
  lemma {:induction false} EqualsSortedIff(s: seq<real>)
    ensures s == Sorted(s) <==> NonDecreasing(s)
    decreases |s|
  {
    if s != [] && NonDecreasing(s) {
      assert NonDecreasing(s[1..]);
      EqualsSortedIff(s[1..]);
      InsertOrdered(s[0], s[1..]);
      assert [s[0]] + s[1..] == s;
    }
    if s == Sorted(s) {
      assert SortedBy(s, Identity);
    }
  }

  /** Inserting a number no larger than the head of a sequence puts it in
      front. */
  lemma InsertOrdered(x: real, s: seq<real>)
    requires s == [] || x <= s[0]
    ensures InsertBy(x, s, Identity) == [x] + s
  {
  }

  // ---------------------------------------------------------------------
  // Distinct elements

  /** No value occurs twice. */
  predicate Distinct(s: seq<real>) {
    forall i, j :: 0 <= i < j < |s| ==> s[i] != s[j]
  }

  lemma DistinctCons(s: seq<real>)
    requires s != []
    ensures Distinct(s) <==> (s[0] !in s[1..] && Distinct(s[1..]))
  {
    var t := s[1..];
    if Distinct(s) {
      forall a, b | 0 <= a < b < |t| ensures t[a] != t[b] {
        assert t[a] == s[a + 1] && t[b] == s[b + 1];
      }
      assert s[0] !in t by {
        forall k | 0 <= k < |t| ensures t[k] != s[0] {
          assert t[k] == s[k + 1];
        }
      }
    }
    if s[0] !in t && Distinct(t) {
      forall i, j | 0 <= i < j < |s| ensures s[i] != s[j] {
        assert s[j] == t[j - 1];
        if i > 0 {
          assert s[i] == t[i - 1];
        }
      }
    }
  }

  /** A sequence has as many distinct elements as entries exactly when no
      value repeats. */
  lemma {:induction false} ElementsCount(s: seq<real>)
    ensures |Elements(s)| <= |s|
    ensures |Elements(s)| == |s| <==> Distinct(s)
    decreases |s|
  {
    if s != [] {
      var t := s[1..];
      ElementsCount(t);
      DistinctCons(s);
      assert Elements(s) == {s[0]} + Elements(t) by {
        assert s == [s[0]] + t;
      }
      if s[0] in t {
        assert Elements(s) == Elements(t);
      } else {
        assert s[0] !in Elements(t);
      }
    }
  }

  /** For times that never decrease, `len(set(times)) == len(times)` is the
      same as strictly increasing. */
  lemma UniqueSortedIsStrict(s: seq<real>)
    requires NonDecreasing(s)
    ensures |Elements(s)| == |s| <==> StrictlyIncreasing(s)
  {
    ElementsCount(s);
    if Distinct(s) {
      forall i, j | 0 <= i < j < |s| ensures s[i] < s[j] {
        assert s[i] <= s[j] && s[i] != s[j];
      }
    }
  }

  /** Two sequences with the same multiset have the same set. */
  lemma ElementsOfPermutation(s: seq<real>, t: seq<real>)
    requires multiset(s) == multiset(t)
    ensures Elements(s) == Elements(t)
  {
    forall x ensures x in Elements(s) <==> x in Elements(t) {
      assert x in s <==> x in multiset(s);
      assert x in t <==> x in multiset(t);
    }
  }

  // ---------------------------------------------------------------------
  // Linear interpolation with flat extrapolation

  /** Shape every curve has: one rate per pillar, at least one pillar, pillar
      times that never decrease. */
  predicate Shape(times: seq<real>, rates: seq<real>) {
    |times| == |rates| >= 1 && NonDecreasing(times)
  }

  function Lerp(t0: real, r0: real, t1: real, r1: real, t: real): real
    requires t0 < t1
  {
    r0 + (t - t0) / (t1 - t0) * (r1 - r0)
  }

  /** The first index `i >= k` whose pillar is at or beyond `t`, i.e. the
      interval (times[i-1], times[i]] holding `t`. */
  function Bracket(times: seq<real>, t: real, k: nat): (i: nat)
    requires NonDecreasing(times)
    requires 1 <= k < |times| && times[k - 1] < t <= Last(times)
    ensures k <= i < |times| && times[i - 1] < t <= times[i]
    decreases |times| - k
  {
    if t <= times[k] then k else Bracket(times, t, k + 1)
  }

  /** Only one interval (times[i-1], times[i]] holds `t`. */
  lemma BracketUnique(times: seq<real>, t: real, i: nat)
    requires NonDecreasing(times)
    requires 1 <= i < |times| && times[i - 1] < t <= times[i]
    ensures times[0] < t <= Last(times)
    ensures Bracket(times, t, 1) == i
  {
    var j := Bracket(times, t, 1);
  }

  /** The zero rate at `t > 0` read off a curve's pillars. */
  function Interpolate(times: seq<real>, rates: seq<real>, t: real): real
    requires Shape(times, rates)
  {
    if t <= times[0] then rates[0]
    else if t >= Last(times) then Last(rates)
    else
      var i := Bracket(times, t, 1);
      Lerp(times[i - 1], rates[i - 1], times[i], rates[i], t)
  }

  /** Flat extrapolation at both ends, and linear interpolation on the one
      interval (times[i-1], times[i]] holding t. */
  lemma InterpolateCases(times: seq<real>, rates: seq<real>, t: real, i: nat)
    requires Shape(times, rates)
    ensures t <= times[0] ==> Interpolate(times, rates, t) == rates[0]
    ensures times[0] < t && t >= Last(times) ==> Interpolate(times, rates, t) == Last(rates)
    ensures 1 <= i < |times| && times[i - 1] < t <= times[i] && (t < Last(times) || StrictlyIncreasing(times))
      ==> Interpolate(times, rates, t) == Lerp(times[i - 1], rates[i - 1], times[i], rates[i], t)
  {
    if 1 <= i < |times| && times[i - 1] < t <= times[i] {
      BracketUnique(times, t, i);
      if t >= Last(times) && StrictlyIncreasing(times) {
        assert i == |times| - 1;
        assert t == times[i];
        assert (t - times[i - 1]) / (times[i] - times[i - 1]) == 1.0;
      }
    }
  }

  /** The search loop of `zero_rate` (src/fm_toolkit/curves.py:98-105, the
      same loop at src/ing_fm/curves.py:50-57): the first pillar at or beyond
      `t` closes the interval to interpolate on. The loop always returns, so
      the trailing `return self.zero_rates[-1]` is never reached. */
  method Scan(times: seq<real>, rates: seq<real>, t: real) returns (r: real)
    requires Shape(times, rates)
    requires times[0] < t < Last(times)
    ensures r == Interpolate(times, rates, t)
  {
    for idx := 1 to |times|
      invariant times[idx - 1] < t
    {
      if t <= times[idx] {
        BracketUnique(times, t, idx);
        return Lerp(times[idx - 1], rates[idx - 1], times[idx], rates[idx], t);
      }
    }
    assert false;
  }

  /** With distinct pillar times the curve passes through every pillar. */
  lemma InterpolateAtPillar(times: seq<real>, rates: seq<real>, i: nat)
    requires Shape(times, rates) && StrictlyIncreasing(times) && i < |times|
    ensures Interpolate(times, rates, times[i]) == rates[i]
  {
    if i > 0 {
      InterpolateCases(times, rates, times[i], i);
    }
  }

  /** Between two pillars the rate lies between their two rates. */
  lemma InterpolateBetween(times: seq<real>, rates: seq<real>, t: real, i: nat)
    requires Shape(times, rates)
    requires 1 <= i < |times| && times[i - 1] < t <= times[i]
    requires t < Last(times) || StrictlyIncreasing(times)
    ensures Between(Interpolate(times, rates, t), rates[i - 1], rates[i])
  {
    InterpolateCases(times, rates, t, i);
    var w := (t - times[i - 1]) / (times[i] - times[i - 1]);
    RatioInUnit(t - times[i - 1], times[i] - times[i - 1]);
    LerpWeight(rates[i - 1], rates[i], w, Lerp(times[i - 1], rates[i - 1], times[i], rates[i], t));
  }

  /** `x` lies on the closed segment between `a` and `b`. */
  predicate Between(x: real, a: real, b: real) {
    (a <= x && x <= b) || (b <= x && x <= a)
  }

  lemma RatioInUnit(a: real, b: real)
    requires 0.0 < a <= b
    ensures 0.0 < a / b <= 1.0
  {
    assert a / b * b == a;
  }

  lemma LerpWeight(r0: real, r1: real, w: real, r: real)
    requires 0.0 <= w <= 1.0
    requires r == r0 + w * (r1 - r0)
    ensures Between(r, r0, r1)
  {
    var d := r1 - r0;
    assert w * d + (1.0 - w) * d == d;
    if d >= 0.0 {
      NonNegativeProduct(w, d);
      NonNegativeProduct(1.0 - w, d);
    } else {
      NonNegativeProduct(w, -d);
      NonNegativeProduct(1.0 - w, -d);
    }
  }

  lemma NonNegativeProduct(a: real, b: real)
    requires a >= 0.0 && b >= 0.0
    ensures a * b >= 0.0
  {
  }

  /** `[r + shift for r in rates]`. */
  function AddToAll(rates: seq<real>, shift: real): (r: seq<real>)
    ensures |r| == |rates|
    ensures forall i :: 0 <= i < |rates| ==> r[i] == rates[i] + shift
  {
    seq(|rates|, i requires 0 <= i < |rates| => rates[i] + shift)
  }

  lemma AddToAllRoundTrip(rates: seq<real>, shift: real)
    ensures AddToAll(AddToAll(rates, shift), -shift) == rates
  {
  }

  /** Shifting every rate by the same amount shifts the interpolated rate by
      that amount. */
  lemma InterpolateShift(times: seq<real>, rates: seq<real>, shift: real, t: real)
    requires Shape(times, rates)
    ensures Shape(times, AddToAll(rates, shift))
    ensures Interpolate(times, AddToAll(rates, shift), t) == Interpolate(times, rates, t) + shift
  {
    var moved := AddToAll(rates, shift);
    if times[0] < t < Last(times) {
      var i := Bracket(times, t, 1);
      var w := (t - times[i - 1]) / (times[i] - times[i - 1]);
      assert moved[i] - moved[i - 1] == rates[i] - rates[i - 1];
      assert Lerp(times[i - 1], moved[i - 1], times[i], moved[i], t)
          == moved[i - 1] + w * (rates[i] - rates[i - 1]);
    }
  }

  /** A constant list of rates interpolates to that constant everywhere. */
  lemma InterpolateConstant(times: seq<real>, rates: seq<real>, rate: real, t: real)
    requires Shape(times, rates)
    requires forall i :: 0 <= i < |rates| ==> rates[i] == rate
    ensures Interpolate(times, rates, t) == rate
  {
    if times[0] < t < Last(times) {
      var i := Bracket(times, t, 1);
      assert rates[i] - rates[i - 1] == 0.0;
    }
  }
}
