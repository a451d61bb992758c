/** `parse_tenor` of src/fm_toolkit/curves.py: a label such as "3M" or " 1 y "
    becomes a year fraction. The label must match the regular expression
    `^\s*(\d+)\s*([DWMYdwmy])\s*$`; the quantity is read as a decimal
    integer and must be positive. */
module Tenor {
  import opened Results
  import opened Text

  predicate IsUnitLetter(c: char) {
    c == 'D' || c == 'W' || c == 'M' || c == 'Y' || c == 'd' || c == 'w' || c == 'm' || c == 'y'
  }

  predicate IsUpperUnit(c: char) {
    c == 'D' || c == 'W' || c == 'M' || c == 'Y'
  }

  lemma UpperUnit(c: char)
    requires IsUnitLetter(c)
    ensures IsUpperUnit(UpperChar(c))
  {
  }

  /** Python's `int(digits)` on ASCII decimal digits (leading zeros allowed). */
  function DigitsValue(d: string): nat
    requires AllDigits(d)
    decreases |d|
  {
    if d == [] then 0
    else DigitsValue(d[..|d| - 1]) * 10 + (d[|d| - 1] as int - '0' as int)
  }

  /** Longest prefix of `s` made of characters satisfying `p`. */
  function TakeWhile(s: string, p: char -> bool): (r: string)
    ensures |r| <= |s| && r == s[..|r|]
    ensures forall i :: 0 <= i < |r| ==> p(r[i])
    ensures |r| < |s| ==> !p(s[|r|])
    decreases |s|
  {
    if s != [] && p(s[0]) then [s[0]] + TakeWhile(s[1..], p) else []
  }

  /** The regular expression match: the digits group and the unit group, or
      `None` when the label does not have the form. */
  function MatchTenor(s: string): (m: Option<(string, char)>)
    ensures m.Some? ==> AllDigits(m.value.0) && IsUnitLetter(m.value.1)
  {
    var afterLead := TrimLeft(s);
    var digits := TakeWhile(afterLead, IsDigit);
    if digits == [] then None
    else
      var afterDigits := TrimLeft(afterLead[|digits|..]);
      if afterDigits == [] || !IsUnitLetter(afterDigits[0]) || !AllSpaces(afterDigits[1..]) then None
      else Some((digits, afterDigits[0]))
  }

  /** The year fraction of `qty` units; the final error is the source's last
      `raise`, the unsupported unit, which no upper-cased unit letter reaches. */
  function YearFraction(qty: nat, unit: char): (r: Result<real>)
    ensures qty > 0 && IsUpperUnit(unit) ==> r.Ok? && r.value > 0.0
  {
    if unit == 'D' then Ok(qty as real / 365.0)
    else if unit == 'W' then Ok((7.0 * qty as real) / 365.0)
    else if unit == 'M' then Ok(qty as real / 12.0)
    else if unit == 'Y' then Ok(qty as real)
    else Err(UnsupportedTenorUnit)
  }

  function ParseTenor(tenor: string): (r: Result<real>)
    ensures tenor == [] ==> r == Err(EmptyTenor)
    ensures r.Ok? ==> r.value > 0.0
    ensures r.Err? ==> r.error in {EmptyTenor, UnsupportedTenorFormat, NonPositiveTenorQuantity}
  {
    if tenor == [] then Err(EmptyTenor)
    else match MatchTenor(tenor)
      case None => Err(UnsupportedTenorFormat)
      case Some((digits, unit)) =>
        var qty := DigitsValue(digits);
        var u := UpperChar(unit);
        if qty <= 0 then Err(NonPositiveTenorQuantity)
        else
          UpperUnit(unit);
          YearFraction(qty, u)
  }

  /** A label of the accepted form: optional whitespace, the digits, optional
      whitespace, the unit letter, optional whitespace. */
  predicate Shaped(w1: string, digits: string, w2: string, unit: char, w3: string) {
    AllSpaces(w1) && AllSpaces(w2) && AllSpaces(w3) &&
    digits != [] && AllDigits(digits) && IsUnitLetter(unit)
  }

  function Label(w1: string, digits: string, w2: string, unit: char, w3: string): string {
    w1 + digits + w2 + [unit] + w3
  }

  lemma TakeDigitsOf(digits: string, rest: string)
    requires AllDigits(digits)
    requires rest == [] || !IsDigit(rest[0])
    ensures TakeWhile(digits + rest, IsDigit) == digits
    decreases |digits|
  {
    if digits != [] {
      assert (digits + rest)[1..] == digits[1..] + rest;
      TakeDigitsOf(digits[1..], rest);
      assert [digits[0]] + digits[1..] == digits;
    } else {
      assert digits + rest == rest;
    }
  }

  /** The regular expression matches every label of the accepted form, with
      the digits and the unit letter as its two groups. */
  lemma MatchShaped(w1: string, digits: string, w2: string, unit: char, w3: string)
    requires Shaped(w1, digits, w2, unit, w3)
    ensures MatchTenor(Label(w1, digits, w2, unit, w3)) == Some((digits, unit))
  {
    var s := Label(w1, digits, w2, unit, w3);
    var last := [unit] + w3;
    var tail := w2 + last;
    assert s == w1 + (digits + tail);
    assert digits[0] == (digits + tail)[0];
    TrimLeftPadded(w1, digits + tail);
    var afterLead := TrimLeft(s);
    assert afterLead == digits + tail;
    assert !IsDigit(tail[0]) by {
      if w2 != [] { assert tail[0] == w2[0]; } else { assert tail[0] == unit; }
    }
    TakeDigitsOf(digits, tail);
    assert afterLead[|digits|..] == tail;
    TrimLeftPadded(w2, last);
    assert last[1..] == w3;
  }

  /** Every label of the accepted form parses, to the unit's year fraction of
      the quantity, or fails only because the quantity is zero. */
  lemma ParseShaped(w1: string, digits: string, w2: string, unit: char, w3: string)
    requires Shaped(w1, digits, w2, unit, w3)
    ensures var qty := DigitsValue(digits);
      ParseTenor(Label(w1, digits, w2, unit, w3))
        == if qty == 0 then Err(NonPositiveTenorQuantity) else YearFraction(qty, UpperChar(unit))
  {
    MatchShaped(w1, digits, w2, unit, w3);
    var s := Label(w1, digits, w2, unit, w3);
    assert |s| > 0;
  }

  /** Leading whitespace and what follows it. */
  lemma SplitLeading(s: string) returns (w: string)
    ensures AllSpaces(w) && s == w + TrimLeft(s)
  {
    w := s[..|s| - |TrimLeft(s)|];
  }

  /** Every label that the regular expression matches has the accepted form. */
  lemma MatchedIsShaped(s: string) returns (w1: string, w2: string, w3: string)
    requires MatchTenor(s).Some?
    ensures var (digits, unit) := MatchTenor(s).value;
      Shaped(w1, digits, w2, unit, w3) && s == Label(w1, digits, w2, unit, w3)
  {
    var afterLead := TrimLeft(s);
    w1 := SplitLeading(s);
    var digits := TakeWhile(afterLead, IsDigit);
    var rest := afterLead[|digits|..];
    PrefixSuffix(afterLead, |digits|);
    var afterDigits := TrimLeft(rest);
    w2 := SplitLeading(rest);
    var unit := afterDigits[0];
    w3 := afterDigits[1..];
    HeadTail(afterDigits);
    LabelParts(s, w1, afterLead, digits, rest, w2, afterDigits, unit, w3);
  }

  lemma PrefixSuffix(s: string, k: nat)
    requires k <= |s|
    ensures s == s[..k] + s[k..]
  {
  }

  lemma HeadTail(s: string)
    requires s != []
    ensures s == [s[0]] + s[1..]
  {
  }

  lemma LabelParts(s: string, w1: string, afterLead: string, digits: string, rest: string,
                   w2: string, afterDigits: string, unit: char, w3: string)
    requires s == w1 + afterLead && afterLead == digits + rest
    requires rest == w2 + afterDigits && afterDigits == [unit] + w3
    ensures s == Label(w1, digits, w2, unit, w3)
  {
  }

  /** Every label that parses has the accepted form. */
  lemma ParsedIsShaped(s: string)
    requires ParseTenor(s).Ok?
    ensures exists w1, digits, w2, unit, w3 ::
      Shaped(w1, digits, w2, unit, w3) && s == Label(w1, digits, w2, unit, w3)
  {
    var w1, w2, w3 := MatchedIsShaped(s);
  }

  /** A non-empty label of no accepted form fails on its format, and on
      nothing else. */
  lemma UnshapedFails(s: string)
    requires s != []
    requires forall w1, digits, w2, unit, w3 ::
      Shaped(w1, digits, w2, unit, w3) ==> s != Label(w1, digits, w2, unit, w3)
    ensures ParseTenor(s) == Err(UnsupportedTenorFormat)
  {
    if MatchTenor(s).Some? {
      var w1, w2, w3 := MatchedIsShaped(s);
      assert false;
    }
  }

  /** Conversely, a label of the accepted form never fails on its format. */
  lemma ShapedNotFormatError(w1: string, digits: string, w2: string, unit: char, w3: string)
    requires Shaped(w1, digits, w2, unit, w3)
    ensures ParseTenor(Label(w1, digits, w2, unit, w3)) != Err(UnsupportedTenorFormat)
  {
    ParseShaped(w1, digits, w2, unit, w3);
    var qty := DigitsValue(digits);
    if qty > 0 {
      UpperUnit(unit);
    }
  }

  // The examples of the library's documentation and tests.

  /** A label without whitespace: the digits and the unit letter. */
  lemma ParseCompact(s: string, digits: string, unit: char)
    requires digits != [] && AllDigits(digits) && IsUnitLetter(unit) && s == digits + [unit]
    ensures var qty := DigitsValue(digits);
      ParseTenor(s) == if qty == 0 then Err(NonPositiveTenorQuantity) else YearFraction(qty, UpperChar(unit))
  {
    CompactLabel(digits, unit);
    ParseShaped("", digits, "", unit, "");
  }

  lemma CompactLabel(digits: string, unit: char)
    ensures Label("", digits, "", unit, "") == digits + [unit]
  {
  }

  lemma SingleDigit(c: char)
    requires IsDigit(c)
    ensures DigitsValue([c]) == c as int - '0' as int
  {
    assert [c][..0] == "";
  }

  lemma ExampleWeek()
    ensures ParseTenor("1W") == Ok(7.0 / 365.0)
  {
    SingleDigit('1');
    ParseCompact("1W", "1", 'W');
  }

  lemma ExampleMonth()
    ensures ParseTenor("1M") == Ok(1.0 / 12.0)
  {
    SingleDigit('1');
    ParseCompact("1M", "1", 'M');
  }

  lemma ExampleYear()
    ensures ParseTenor("1Y") == Ok(1.0)
  {
    SingleDigit('1');
    ParseCompact("1Y", "1", 'Y');
  }

  lemma ExampleLowerCase()
    ensures ParseTenor("3m") == Ok(0.25)
  {
    SingleDigit('3');
    LowerMonth();
    ParseCompact("3m", "3", 'm');
  }

  lemma LowerMonth()
    ensures UpperChar('m') == 'M' && YearFraction(3, 'M') == Ok(0.25)
  {
  }

  lemma ExampleSpaces()
    ensures ParseTenor(" 10 d ") == Ok(10.0 / 365.0)
  {
    ParseShaped(" ", "10", " ", 'd', " ");
    SpacedLabel();
    Ten();
  }

  lemma SpacedLabel()
    ensures Label(" ", "10", " ", 'd', " ") == " 10 d "
  {
    assert " " + "10" == " 10";
    assert " 10" + " " == " 10 ";
    assert " 10 " + ['d'] == " 10 d";
    assert " 10 d" + " " == " 10 d ";
  }

  lemma Ten()
    ensures DigitsValue("10") == 10
  {
    assert "10"[..1] == "1";
    assert "1"[..0] == "";
  }

  lemma ExampleTwelveMonths()
    ensures ParseTenor("12M") == Ok(1.0)
  {
    var s := Label("", "12", "", 'M', "");
    assert ParseTenor(s) == Ok(1.0) by {
      ParseShaped("", "12", "", 'M', "");
      Twelve();
    }
    TwelveMonthsLabel();
  }

  lemma TwelveMonthsLabel()
    ensures Label("", "12", "", 'M', "") == "12M"
  {
  }

  lemma Twelve()
    ensures DigitsValue("12") == 12
  {
    assert "12"[..1] == "1";
    assert "1"[..0] == "";
  }

  lemma ExampleZeroQuantity()
    ensures ParseTenor("0M") == Err(NonPositiveTenorQuantity)
  {
    SingleDigit('0');
    ParseCompact("0M", "0", 'M');
  }

  lemma ExampleMalformed()
    ensures ParseTenor("") == Err(EmptyTenor)
    ensures ParseTenor("2X") == Err(UnsupportedTenorFormat)
    ensures ParseTenor("M") == Err(UnsupportedTenorFormat)
  {
    UnknownUnit();
    NoQuantity();
  }

  lemma UnknownUnit()
    ensures ParseTenor("2X") == Err(UnsupportedTenorFormat)
  {
    assert TrimLeft("2X") == "2X";
    assert TakeWhile("2X", IsDigit) == "2" by {
      assert "2X"[1..] == "X";
    }
    assert "2X"[1..] == "X";
  }

  lemma NoQuantity()
    ensures ParseTenor("M") == Err(UnsupportedTenorFormat)
  {
    assert TrimLeft("M") == "M";
    assert TakeWhile("M", IsDigit) == [];
  }
}
