/** `parse_pair` of src/fm_toolkit/marketdata.py: a currency pair such as
    "EUR/USD" or " gbp/jpy " becomes its upper-cased base and quote codes. */
module MarketData {
  import opened Results
  import opened Text

  /** The input is stripped and upper-cased, split on "/" into exactly two
      pieces, and each stripped piece must be three letters. */
  function ParsePair(pair: string): (r: Result<(string, string)>)
    ensures pair == [] ==> r == Err(EmptyPair)
    ensures r.Err? ==> r.error in {EmptyPair, MalformedPair, BadCurrencyCode}
    ensures r.Ok? ==> IsCode(r.value.0) && IsCode(r.value.1)
  {
    if pair == [] then Err(EmptyPair)
    else
      var parts := Split(Upper(Strip(pair)), '/');
      var r := CheckParts(parts);
      if r.Ok? then
        CodeOfUpper(Strip(pair), parts, r.value.0, r.value.1);
        r
      else r
  }

  /** The checks on the pieces of the cleaned pair: exactly two, each
      three letters once stripped. */
  function CheckParts(parts: seq<string>): (r: Result<(string, string)>)
    ensures |parts| != 2 ==> r == Err(MalformedPair)
    ensures |parts| == 2 ==> r == CheckCodes(Strip(parts[0]), Strip(parts[1]))
  {
    if |parts| != 2 then Err(MalformedPair)
    else CheckCodes(Strip(parts[0]), Strip(parts[1]))
  }

  function CheckCodes(base: string, quote: string): (r: Result<(string, string)>)
    ensures r.Ok? <==> |base| == 3 && |quote| == 3 && IsAlphaStr(base) && IsAlphaStr(quote)
    ensures r.Ok? ==> r.value == (base, quote)
    ensures r.Err? ==> r.error == BadCurrencyCode
  {
    if |base| != 3 || |quote| != 3 || !IsAlphaStr(base) || !IsAlphaStr(quote) then Err(BadCurrencyCode)
    else Ok((base, quote))
  }

  /** A currency code as returned: three upper-case letters. */
  predicate IsCode(s: string) {
    |s| == 3 && forall i :: 0 <= i < 3 ==> IsUpperLetter(s[i])
  }

  predicate NoLower(s: string) {
    forall i :: 0 <= i < |s| ==> !IsLower(s[i])
  }

  lemma {:induction false} SplitNoLower(s: string, sep: char)
    requires NoLower(s)
    ensures forall k :: 0 <= k < |Split(s, sep)| ==> NoLower(Split(s, sep)[k])
    decreases |s|
  {
    if s != [] {
      SplitNoLower(s[1..], sep);
    }
  }

  lemma StripNoLower(s: string)
    requires NoLower(s)
    ensures NoLower(Strip(s))
  {
    var l, r := StripParts(s);
    assert forall i :: 0 <= i < |Strip(s)| ==> Strip(s)[i] == s[|l| + i];
  }

  /** The pieces of an upper-cased string hold no lower-case letter, so
      three-letter pieces are codes. */
  lemma CodeOfUpper(s: string, parts: seq<string>, base: string, quote: string)
    requires parts == Split(Upper(s), '/') && |parts| == 2
    requires base == Strip(parts[0]) && quote == Strip(parts[1])
    requires |base| == 3 && |quote| == 3 && IsAlphaStr(base) && IsAlphaStr(quote)
    ensures IsCode(base) && IsCode(quote)
  {
    UpperNoLower(s);
    SplitNoLower(Upper(s), '/');
    PieceCode(parts, 0, base);
    PieceCode(parts, 1, quote);
  }

  lemma UpperNoLower(s: string)
    ensures NoLower(Upper(s))
  {
  }

  lemma PieceCode(parts: seq<string>, k: nat, code: string)
    requires k < |parts| && forall j :: 0 <= j < |parts| ==> NoLower(parts[j])
    requires code == Strip(parts[k]) && |code| == 3 && IsAlphaStr(code)
    ensures IsCode(code)
  {
    StripNoLower(parts[k]);
  }

  /** A pair of the accepted form: whitespace, three letters of either case,
      whitespace, the slash, whitespace, three letters, whitespace. */
  predicate Shaped(w1: string, base: string, w2: string, w3: string, quote: string, w4: string) {
    AllSpaces(w1) && AllSpaces(w2) && AllSpaces(w3) && AllSpaces(w4) &&
    |base| == 3 && |quote| == 3 && IsAlphaStr(base) && IsAlphaStr(quote)
  }

  function Label(w1: string, base: string, w2: string, w3: string, quote: string, w4: string): string {
    w1 + Core(base, w2, w3, quote) + w4
  }

  /** What stripping leaves of a pair of the accepted form. */
  function Core(base: string, w2: string, w3: string, quote: string): string {
    base + w2 + "/" + w3 + quote
  }

  /** Stripping a pair of the accepted form leaves its core. */
  lemma StripShaped(w1: string, base: string, w2: string, w3: string, quote: string, w4: string)
    requires Shaped(w1, base, w2, w3, quote, w4)
    ensures Strip(Label(w1, base, w2, w3, quote, w4)) == Core(base, w2, w3, quote)
  {
    var core := Core(base, w2, w3, quote);
    assert core[0] == base[0] && core[|core| - 1] == quote[2];
    StripPadded(w1, core, w4);
  }

  /** Upper-casing the core keeps its whitespace and its slash. */
  lemma UpperShaped(base: string, w2: string, w3: string, quote: string)
    requires AllSpaces(w2) && AllSpaces(w3)
    ensures Upper(Core(base, w2, w3, quote)) == (Upper(base) + w2) + ['/'] + (w3 + Upper(quote))
  {
    UpperConcat(base + w2 + ['/'] + w3, quote);
    UpperConcat(base + w2 + ['/'], w3);
    UpperConcat(base + w2, ['/']);
    UpperConcat(base, w2);
    UpperSpaces(w2);
    UpperSpaces(w3);
    assert Upper(['/']) == ['/'];
  }

  /** The cleaned core splits at its one slash. */
  lemma SplitShaped(b: string, w2: string, w3: string, q: string)
    requires AllSpaces(w2) && AllSpaces(w3) && IsAlphaStr(b) && IsAlphaStr(q)
    ensures Split((b + w2) + ['/'] + (w3 + q), '/') == [b + w2, w3 + q]
  {
    assert '/' !in b + w2 by {
      assert forall i :: 0 <= i < |b + w2| ==> (b + w2)[i] != '/';
    }
    assert '/' !in w3 + q by {
      assert forall i :: 0 <= i < |w3 + q| ==> (w3 + q)[i] != '/';
    }
    SplitAt(b + w2, '/', w3 + q);
    SplitNoSep(w3 + q, '/');
  }

  /** The two pieces strip to the codes. */
  lemma StripPieces(b: string, w2: string, w3: string, q: string)
    requires AllSpaces(w2) && AllSpaces(w3) && |b| == 3 && |q| == 3 && IsAlphaStr(b) && IsAlphaStr(q)
    ensures CheckParts([b + w2, w3 + q]) == Ok((b, q))
  {
    assert [] + b + w2 == b + w2;
    StripPadded([], b, w2);
    assert w3 + q + [] == w3 + q;
    StripPadded(w3, q, []);
  }

  /** Every pair of the accepted form parses to its two codes, upper-cased. */
  lemma ParseShaped(w1: string, base: string, w2: string, w3: string, quote: string, w4: string)
    requires Shaped(w1, base, w2, w3, quote, w4)
    ensures ParsePair(Label(w1, base, w2, w3, quote, w4)) == Ok((Upper(base), Upper(quote)))
  {
    var pair := Label(w1, base, w2, w3, quote, w4);
    StripShaped(w1, base, w2, w3, quote, w4);
    UpperShaped(base, w2, w3, quote);
    UpperKeepsClasses(base);
    UpperKeepsClasses(quote);
    var b, q := Upper(base), Upper(quote);
    SplitShaped(b, w2, w3, q);
    StripPieces(b, w2, w3, q);
    assert Split(Upper(Strip(pair)), '/') == [b + w2, w3 + q];
  }

  /** The pieces of a cleaned pair that passes the checks: whitespace, the
      code, whitespace, the slash, whitespace, the code, whitespace. */
  lemma CleanedParts(pair: string) returns (l0: string, b: string, r0: string, l1: string, q: string, r1: string)
    requires ParsePair(pair).Ok?
    ensures Upper(Strip(pair)) == l0 + (b + r0 + ['/'] + l1 + q) + r1
    ensures AllSpaces(l0) && AllSpaces(r0) && AllSpaces(l1) && AllSpaces(r1)
    ensures |b| == 3 && |q| == 3 && IsAlphaStr(b) && IsAlphaStr(q)
    ensures ParsePair(pair).value == (b, q)
  {
    var p0, p1 := ParsedPieces(pair);
    l0, b, r0, l1, q, r1 := TwoPieces(Upper(Strip(pair)), p0, p1);
  }

  /** A string that splits into two pieces is the first piece, the slash
      and the second, each padded with whitespace around its stripped form. */
  lemma TwoPieces(cleaned: string, p0: string, p1: string)
    returns (l0: string, b: string, r0: string, l1: string, q: string, r1: string)
    requires Split(cleaned, '/') == [p0, p1]
    ensures cleaned == l0 + (b + r0 + ['/'] + l1 + q) + r1
    ensures AllSpaces(l0) && AllSpaces(r0) && AllSpaces(l1) && AllSpaces(r1)
    ensures b == Strip(p0) && q == Strip(p1)
  {
    SplitTwo(cleaned, '/');
    l0, r0 := StripParts(p0);
    l1, r1 := StripParts(p1);
    b := Strip(p0);
    q := Strip(p1);
    RegroupPieces(cleaned, p0, p1, l0, b, r0, l1, q, r1);
  }

  lemma RegroupPieces(c: string, p0: string, p1: string,
                      l0: string, b: string, r0: string, l1: string, q: string, r1: string)
    requires c == p0 + ['/'] + p1 && p0 == l0 + b + r0 && p1 == l1 + q + r1
    ensures c == l0 + (b + r0 + ['/'] + l1 + q) + r1
  {
    assert c == (l0 + b + r0 + ['/']) + (l1 + q + r1);
    assert c == l0 + (b + r0 + ['/'] + l1 + q) + r1;
  }

  /** A pair that parses cleans into exactly two pieces, which strip to its
      codes. */
  lemma ParsedPieces(pair: string) returns (p0: string, p1: string)
    requires ParsePair(pair).Ok?
    ensures Split(Upper(Strip(pair)), '/') == [p0, p1]
    ensures CheckCodes(Strip(p0), Strip(p1)) == ParsePair(pair)
  {
    var parts := Split(Upper(Strip(pair)), '/');
    p0, p1 := parts[0], parts[1];
    assert parts == [p0, p1];
  }

  /** A string whose upper-cased form has the pieces of a parsed pair has
      those pieces itself, with the codes in their original case. */
  lemma CoreParts(core: string, l0: string, b: string, r0: string, l1: string, q: string, r1: string)
    returns (c0: string, base: string, c2: string, c4: string, quote: string, c6: string)
    requires Upper(core) == l0 + (b + r0 + ['/'] + l1 + q) + r1
    requires AllSpaces(l0) && AllSpaces(r0) && AllSpaces(l1) && AllSpaces(r1)
    requires |b| == 3 && |q| == 3 && IsAlphaStr(b) && IsAlphaStr(q)
    ensures core == c0 + Core(base, c2, c4, quote) + c6
    ensures AllSpaces(c0) && AllSpaces(c2) && AllSpaces(c4) && AllSpaces(c6)
    ensures |base| == 3 && |quote| == 3 && IsAlphaStr(base) && IsAlphaStr(quote)
    ensures Upper(base) == b && Upper(quote) == q
  {
    var slash;
    c0, base, c2, slash, c4, quote, c6 := CoreSlices(core, l0, b, r0, l1, q, r1);
    UpperClassesIff(c0);
    UpperClassesIff(base);
    UpperClassesIff(c2);
    UpperClassesIff(c4);
    UpperClassesIff(quote);
    UpperClassesIff(c6);
    assert slash == "/" by {
      assert UpperChar(slash[0]) == '/';
    }
  }

  /** Cutting a string where its upper-cased form has its pieces. */
  lemma CoreSlices(core: string, p0: string, p1: string, p2: string, p3: string, p4: string, p5: string)
    returns (c0: string, c1: string, c2: string, c3: string, c4: string, c5: string, c6: string)
    requires Upper(core) == p0 + (p1 + p2 + ['/'] + p3 + p4) + p5
    ensures core == c0 + (c1 + c2 + c3 + c4 + c5) + c6
    ensures Upper(c0) == p0 && Upper(c1) == p1 && Upper(c2) == p2 && Upper(c3) == ['/']
    ensures Upper(c4) == p3 && Upper(c5) == p4 && Upper(c6) == p5
    ensures |c3| == 1
  {
    var d, e, e4, e3, e2;
    d, c6 := UpperCut(core, p0 + (p1 + p2 + ['/'] + p3 + p4), p5);
    c0, e := UpperCut(d, p0, p1 + p2 + ['/'] + p3 + p4);
    e4, c5 := UpperCut(e, p1 + p2 + ['/'] + p3, p4);
    e3, c4 := UpperCut(e4, p1 + p2 + ['/'], p3);
    e2, c3 := UpperCut(e3, p1 + p2, ['/']);
    c1, c2 := UpperCut(e2, p1, p2);
  }

  /** A stripped pair cut into the accepted form, with the whitespace
      stripped off added back on the outside. */
  lemma Reshape(pair: string, l: string, r: string,
                c0: string, base: string, c2: string, c4: string, quote: string, c6: string)
    requires AllSpaces(l) && AllSpaces(r) && pair == l + Strip(pair) + r
    requires Strip(pair) == c0 + Core(base, c2, c4, quote) + c6
    requires AllSpaces(c0) && AllSpaces(c2) && AllSpaces(c4) && AllSpaces(c6)
    requires |base| == 3 && |quote| == 3 && IsAlphaStr(base) && IsAlphaStr(quote)
    ensures Shaped(l + c0, base, c2, c4, quote, c6 + r)
    ensures pair == Label(l + c0, base, c2, c4, quote, c6 + r)
  {
    SpacesConcat(l, c0);
    SpacesConcat(c6, r);
    Regroup5(l, c0, Core(base, c2, c4, quote), c6, r);
  }

  lemma Regroup5(a: string, b: string, c: string, d: string, e: string)
    ensures a + (b + c + d) + e == (a + b) + c + (d + e)
  {
  }

  /** Every pair that parses has the accepted form, and its codes are the
      upper-cased letters of that form. */
  lemma ParsedIsShaped(pair: string) returns (w1: string, base: string, w2: string, w3: string, quote: string, w4: string)
    requires ParsePair(pair).Ok?
    ensures Shaped(w1, base, w2, w3, quote, w4) && pair == Label(w1, base, w2, w3, quote, w4)
    ensures ParsePair(pair).value == (Upper(base), Upper(quote))
  {
    var l, r := StripParts(pair);
    var l0, b, r0, l1, q, r1 := CleanedParts(pair);
    var c0, c6;
    c0, base, w2, w3, quote, c6 := CoreParts(Strip(pair), l0, b, r0, l1, q, r1);
    Reshape(pair, l, r, c0, base, w2, w3, quote, c6);
    w1 := l + c0;
    w4 := c6 + r;
  }

  /** A code has no slash in it. */
  lemma CodeNoSlash(c: string)
    requires IsCode(c)
    ensures '/' !in c
  {
    assert forall i :: 0 <= i < |c| ==> c[i] != '/';
  }

  /** A code has no lower-case letter to upper-case. */
  lemma CodeUpper(c: string)
    requires IsCode(c)
    ensures Upper(c) == c
  {
  }

  /** Two codes pass the checks on the pieces unchanged. */
  lemma CheckCodesOf(base: string, quote: string)
    requires IsCode(base) && IsCode(quote)
    ensures CheckParts([base, quote]) == Ok((base, quote))
  {
    StripClean(base);
    StripClean(quote);
    CheckTwo(base, quote);
  }

  lemma CheckTwo(p0: string, p1: string)
    ensures CheckParts([p0, p1]) == CheckCodes(Strip(p0), Strip(p1))
  {
    var parts := [p0, p1];
    assert parts[0] == p0 && parts[1] == p1;
  }

  /** BASE/QUOTE cleans and splits into the two codes. */
  lemma PairPieces(base: string, quote: string)
    requires IsCode(base) && IsCode(quote)
    ensures Split(Upper(Strip(base + "/" + quote)), '/') == [base, quote]
  {
    PairClean(base, quote);
    PairSplit(base, quote);
  }

  lemma PairClean(base: string, quote: string)
    requires IsCode(base) && IsCode(quote)
    ensures Upper(Strip(base + "/" + quote)) == base + "/" + quote
  {
    PairStrip(base, quote);
    PairUpper(base, quote);
  }

  lemma PairStrip(base: string, quote: string)
    requires IsCode(base) && IsCode(quote)
    ensures Strip(base + "/" + quote) == base + "/" + quote
  {
    var pair := base + "/" + quote;
    assert pair[0] == base[0] && pair[|pair| - 1] == quote[2];
    StripClean(pair);
  }

  lemma PairUpper(base: string, quote: string)
    requires IsCode(base) && IsCode(quote)
    ensures Upper(base + "/" + quote) == base + "/" + quote
  {
    CodeUpper(base);
    CodeUpper(quote);
    UpperConcat(base + "/", quote);
    UpperConcat(base, "/");
    assert Upper("/") == "/";
  }

  lemma PairSplit(base: string, quote: string)
    requires IsCode(base) && IsCode(quote)
    ensures Split(base + "/" + quote, '/') == [base, quote]
  {
    CodeNoSlash(base);
    CodeNoSlash(quote);
    assert base + "/" + quote == base + ['/'] + quote;
    SplitAt(base, '/', quote);
    SplitNoSep(quote, '/');
  }

  /** A pair whose cleaned form splits in two is decided by the checks on
      the two stripped pieces. */
  lemma PiecesDecide(pair: string, p0: string, p1: string)
    requires pair != [] && Split(Upper(Strip(pair)), '/') == [p0, p1]
    ensures ParsePair(pair) == CheckCodes(Strip(p0), Strip(p1))
  {
    CheckTwo(p0, p1);
  }

  /** A pair whose cleaned pieces are two codes parses to them. */
  lemma ParseOfPieces(pair: string, base: string, quote: string)
    requires pair != [] && Split(Upper(Strip(pair)), '/') == [base, quote]
    requires IsCode(base) && IsCode(quote)
    ensures ParsePair(pair) == Ok((base, quote))
  {
    PiecesDecide(pair, base, quote);
    CheckCodesOf(base, quote);
  }

  /** Two codes written as BASE/QUOTE parse to themselves. */
  lemma ParseCodes(base: string, quote: string)
    requires IsCode(base) && IsCode(quote)
    ensures ParsePair(base + "/" + quote) == Ok((base, quote))
  {
    PairPieces(base, quote);
    ParseOfPieces(base + "/" + quote, base, quote);
  }

  /** Parsing is idempotent: a parsed pair written as BASE/QUOTE parses to
      itself. */
  lemma ParseIdempotent(pair: string)
    requires ParsePair(pair).Ok?
    ensures var (base, quote) := ParsePair(pair).value;
      ParsePair(base + "/" + quote) == Ok((base, quote))
  {
    ParseCodes(ParsePair(pair).value.0, ParsePair(pair).value.1);
  }

  /** A non-empty pair that is all whitespace has no slash: it is rejected
      as malformed. */
  lemma WhitespaceRejected(pair: string)
    requires pair != [] && AllSpaces(pair)
    ensures ParsePair(pair) == Err(MalformedPair)
  {
    StripAllSpaces(pair);
    assert Upper([]) == [];
  }

  /** A pair whose cleaned form does not hold exactly one slash is rejected
      as malformed. */
  lemma SlashCountRejected(pair: string)
    requires pair != [] && Count(Upper(Strip(pair)), '/') != 1
    ensures ParsePair(pair) == Err(MalformedPair)
  {
    SplitLength(Upper(Strip(pair)), '/');
  }

  // The examples of the library's tests.

  lemma ExampleEurUsd()
    ensures ParsePair("EUR/USD") == Ok(("EUR", "USD"))
  {
    assert "EUR" + "/" + "USD" == "EUR/USD";
    PairPieces("EUR", "USD");
    ParseOfPieces("EUR/USD", "EUR", "USD");
  }

  lemma ExampleLowerPadded()
    ensures ParsePair(" gbp/jpy ") == Ok(("GBP", "JPY"))
  {
    StripLowerPadded();
    UpperLowerPadded();
    SplitLowerPadded();
    UpperCodes();
    ParseOfPieces(" gbp/jpy ", "GBP", "JPY");
  }

  lemma StripLowerPadded()
    ensures Strip(" gbp/jpy ") == "gbp/jpy"
  {
    StripPadded(" ", "gbp/jpy", " ");
    assert " " + "gbp/jpy" + " " == " gbp/jpy ";
  }

  lemma UpperLowerPadded()
    ensures Upper("gbp/jpy") == "GBP/JPY"
  {
  }

  lemma SplitLowerPadded()
    ensures Split("GBP/JPY", '/') == ["GBP", "JPY"]
  {
    assert "GBP" + "/" + "JPY" == "GBP/JPY";
    UpperCodes();
    PairSplit("GBP", "JPY");
  }

  lemma UpperCodes()
    ensures IsCode("GBP") && IsCode("JPY")
  {
  }

  lemma ExampleNoSlash()
    ensures ParsePair("EURUSD") == Err(MalformedPair)
  {
    StripNoSlash();
    UpperNoSlash();
    CountNoSlash();
    SlashCountRejected("EURUSD");
  }

  lemma StripNoSlash()
    ensures Strip("EURUSD") == "EURUSD"
  {
    StripClean("EURUSD");
  }

  lemma UpperNoSlash()
    ensures Upper("EURUSD") == "EURUSD"
  {
  }

  lemma CountNoSlash()
    ensures Count("EURUSD", '/') == 0
  {
  }

  lemma ExampleTwoSlashes()
    ensures ParsePair("A/B/C") == Err(MalformedPair)
  {
    StripTwoSlashes();
    UpperTwoSlashes();
    CountTwoSlashes();
    SlashCountRejected("A/B/C");
  }

  lemma StripTwoSlashes()
    ensures Strip("A/B/C") == "A/B/C"
  {
    StripClean("A/B/C");
  }

  lemma UpperTwoSlashes()
    ensures Upper("A/B/C") == "A/B/C"
  {
  }

  lemma CountTwoSlashes()
    ensures Count("A/B/C", '/') == 2
  {
    assert multiset("A/B/C")['/'] == 2;
  }

  lemma ExampleLongCode()
    ensures ParsePair("EURO/USD") == Err(BadCurrencyCode)
  {
    StripLongCode();
    UpperLongCode();
    SplitLongCode();
    PiecesDecide("EURO/USD", "EURO", "USD");
    StripClean("EURO");
  }

  lemma StripLongCode()
    ensures Strip("EURO/USD") == "EURO/USD"
  {
    StripClean("EURO/USD");
  }

  lemma UpperLongCode()
    ensures Upper("EURO/USD") == "EURO/USD"
  {
  }

  lemma SplitLongCode()
    ensures Split("EURO/USD", '/') == ["EURO", "USD"]
  {
    assert "EURO/USD" == "EURO" + ['/'] + "USD";
    SplitAt("EURO", '/', "USD");
    SplitNoSep("USD", '/');
  }
}
