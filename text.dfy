/** The few Python `str` operations the library uses (`isspace`, `isdigit`,
    `isalpha`, `upper`, `strip`, `split` on one character, `join`), over the
    ASCII range. A character outside ASCII is classified as neither
    whitespace, digit nor letter, and `upper` leaves it unchanged. */
module Text {

  /** Python's whitespace among the ASCII characters: \t \n \v \f \r, the four
      separators \x1c..\x1f, and the space. */
  predicate IsSpace(c: char) {
    (9 <= c as int <= 13) || (28 <= c as int <= 32)
  }

  predicate IsDigit(c: char) { '0' <= c <= '9' }

  predicate IsLower(c: char) { 'a' <= c <= 'z' }

  predicate IsUpperLetter(c: char) { 'A' <= c <= 'Z' }

  predicate IsAlpha(c: char) { IsLower(c) || IsUpperLetter(c) }

  predicate AllSpaces(s: string) { forall i :: 0 <= i < |s| ==> IsSpace(s[i]) }

  lemma SpacesConcat(a: string, b: string)
    requires AllSpaces(a) && AllSpaces(b)
    ensures AllSpaces(a + b)
  {
    assert forall i :: 0 <= i < |a + b| ==> (a + b)[i] == if i < |a| then a[i] else b[i - |a|];
  }

  predicate AllDigits(s: string) { forall i :: 0 <= i < |s| ==> IsDigit(s[i]) }

  /** `s.isalpha()`: non-empty and every character a letter. */
  predicate IsAlphaStr(s: string) { |s| > 0 && forall i :: 0 <= i < |s| ==> IsAlpha(s[i]) }

  function UpperChar(c: char): (u: char)
    ensures IsLower(c) ==> IsUpperLetter(u) && u as int == c as int - 32
    ensures !IsLower(c) ==> u == c
  {
    if IsLower(c) then (c as int - 32) as char else c
  }

  /** `s.upper()`. */
  function Upper(s: string): (u: string)
    ensures |u| == |s|
    ensures forall i :: 0 <= i < |s| ==> u[i] == UpperChar(s[i])
  {
    seq(|s|, i requires 0 <= i < |s| => UpperChar(s[i]))
  }

  lemma UpperConcat(a: string, b: string)
    ensures Upper(a + b) == Upper(a) + Upper(b)
  {
    assert forall i :: 0 <= i < |a + b| ==> Upper(a + b)[i] == (Upper(a) + Upper(b))[i];
  }

  /** Upper-casing changes neither whitespace, nor the separator, nor the
      letter-ness of a character. */
  lemma UpperKeepsClasses(s: string)
    ensures AllSpaces(s) ==> AllSpaces(Upper(s))
    ensures IsAlphaStr(s) ==> IsAlphaStr(Upper(s))
    ensures forall i :: 0 <= i < |s| ==> (Upper(s)[i] == '/' <==> s[i] == '/')
    ensures forall i :: 0 <= i < |s| ==> (IsSpace(Upper(s)[i]) <==> IsSpace(s[i]))
  {
  }

  /** Upper-casing commutes with slicing. */
  lemma UpperSlice(s: string, i: nat, j: nat)
    requires i <= j <= |s|
    ensures Upper(s[i..j]) == Upper(s)[i..j]
  {
  }

  /** A string whose upper-cased form is cut in two is cut in two itself. */
  lemma UpperCut(s: string, p: string, q: string) returns (a: string, b: string)
    requires Upper(s) == p + q
    ensures s == a + b && Upper(a) == p && Upper(b) == q
  {
    a := s[..|p|];
    b := s[|p|..];
    UpperSlice(s, 0, |p|);
    UpperSlice(s, |p|, |s|);
    assert s[0..|p|] == a && s[|p|..|s|] == b;
    assert Upper(s)[0..|p|] == p && Upper(s)[|p|..|s|] == q;
  }

  /** A string is whitespace, or alphabetic, exactly when its upper-cased
      form is. */
  lemma UpperClassesIff(s: string)
    ensures AllSpaces(Upper(s)) <==> AllSpaces(s)
    ensures IsAlphaStr(Upper(s)) <==> IsAlphaStr(s)
  {
    UpperKeepsClasses(s);
    if IsAlphaStr(Upper(s)) {
      forall i | 0 <= i < |s| ensures IsAlpha(s[i]) {
        assert IsAlpha(UpperChar(s[i]));
      }
    }
  }

  /** Upper-casing leaves whitespace alone. */
  lemma UpperSpaces(w: string)
    requires AllSpaces(w)
    ensures Upper(w) == w
  {
  }

  /** Upper-casing an upper-cased string changes nothing. */
  lemma UpperIdempotent(s: string)
    ensures Upper(Upper(s)) == Upper(s)
  {
  }

  /** `s.lstrip()`: drop leading whitespace. */
  function TrimLeft(s: string): (r: string)
    ensures |r| <= |s| && r == s[|s| - |r|..]
    ensures AllSpaces(s[..|s| - |r|])
    ensures r == [] || !IsSpace(r[0])
    decreases |s|
  {
    if s != [] && IsSpace(s[0]) then TrimLeft(s[1..]) else s
  }

  /** `s.rstrip()`: drop trailing whitespace. */
  function TrimRight(s: string): (r: string)
    ensures |r| <= |s| && r == s[..|r|]
    ensures AllSpaces(s[|r|..])
    ensures r == [] || !IsSpace(r[|r| - 1])
    decreases |s|
  {
    if s != [] && IsSpace(s[|s| - 1]) then
      var r := TrimRight(s[..|s| - 1]);
      assert s[|r|..] == s[..|s| - 1][|r|..] + [s[|s| - 1]];
      r
    else s
  }

  /** `s.strip()`. */
  function Strip(s: string): (r: string)
    ensures r == [] || (!IsSpace(r[0]) && !IsSpace(r[|r| - 1]))
  {
    TrimRight(TrimLeft(s))
  }

  lemma {:induction false} TrimLeftPadded(w: string, x: string)
    requires AllSpaces(w)
    requires x == [] || !IsSpace(x[0])
    ensures TrimLeft(w + x) == x
    decreases |w|
  {
    if w != [] {
      assert (w + x)[1..] == w[1..] + x;
      TrimLeftPadded(w[1..], x);
    } else {
      assert w + x == x;
    }
  }

  lemma {:induction false} TrimRightPadded(x: string, w: string)
    requires AllSpaces(w)
    requires x == [] || !IsSpace(x[|x| - 1])
    ensures TrimRight(x + w) == x
    decreases |w|
  {
    if w != [] {
      assert (x + w)[..|x + w| - 1] == x + w[..|w| - 1];
      TrimRightPadded(x, w[..|w| - 1]);
    } else {
      assert x + w == x;
    }
  }

  /** Stripping a string padded with whitespace gives back its core, when
      the core starts and ends on a non-space. */
  lemma StripPadded(w1: string, x: string, w2: string)
    requires AllSpaces(w1) && AllSpaces(w2)
    requires x != [] && !IsSpace(x[0]) && !IsSpace(x[|x| - 1])
    ensures Strip(w1 + x + w2) == x
  {
    assert w1 + x + w2 == w1 + (x + w2);
    TrimLeftPadded(w1, x + w2);
    TrimRightPadded(x, w2);
  }

  /** A string that starts and ends on a non-space strips to itself. */
  lemma StripClean(x: string)
    requires x != [] && !IsSpace(x[0]) && !IsSpace(x[|x| - 1])
    ensures Strip(x) == x
  {
    assert [] + x == x;
    TrimLeftPadded([], x);
    assert x + [] == x;
    TrimRightPadded(x, []);
  }

  lemma StripAllSpaces(s: string)
    requires AllSpaces(s)
    ensures Strip(s) == []
  {
    assert s + [] == s;
    TrimRightPadded([], s);
    TrimLeftPadded(s, []);
  }

  /** Stripping removes whitespace from both ends and nothing else. */
  lemma StripParts(s: string) returns (l: string, r: string)
    ensures AllSpaces(l) && AllSpaces(r) && s == l + Strip(s) + r
  {
    var left := TrimLeft(s);
    l := TrimLeftParts(s);
    r := TrimRightParts(left);
    Regroup3(s, l, left, TrimRight(left), r);
  }

  lemma TrimLeftParts(s: string) returns (l: string)
    ensures AllSpaces(l) && s == l + TrimLeft(s)
  {
    l := s[..|s| - |TrimLeft(s)|];
  }

  lemma TrimRightParts(s: string) returns (r: string)
    ensures AllSpaces(r) && s == TrimRight(s) + r
  {
    r := s[|TrimRight(s)|..];
  }

  lemma Regroup3(s: string, l: string, left: string, core: string, r: string)
    requires s == l + left && left == core + r
    ensures s == l + core + r
  {
  }

  /** `s.split(sep)` for a one-character separator: never empty, and the
      pieces between consecutive separators, in order. */
  function Split(s: string, sep: char): (parts: seq<string>)
    ensures |parts| >= 1
    decreases |s|
  {
    if s == [] then [[]]
    else if s[0] == sep then [[]] + Split(s[1..], sep)
    else
      var rest := Split(s[1..], sep);
      [[s[0]] + rest[0]] + rest[1..]
  }

  /** Number of occurrences of `c` in `s`. */
  function Count(s: string, c: char): nat {
    multiset(s)[c]
  }

  /** Splitting yields one more piece than there are separators. */
  lemma {:induction false} SplitLength(s: string, sep: char)
    ensures |Split(s, sep)| == Count(s, sep) + 1
    decreases |s|
  {
    if s != [] {
      SplitLength(s[1..], sep);
      assert s == [s[0]] + s[1..];
      assert multiset(s) == multiset([s[0]]) + multiset(s[1..]);
    }
  }

  /** A piece without the separator splits into itself. */
  lemma {:induction false} SplitNoSep(s: string, sep: char)
    requires sep !in s
    ensures Split(s, sep) == [s]
    decreases |s|
  {
    if s != [] {
      SplitNoSep(s[1..], sep);
      assert [s[0]] + s[1..] == s;
    }
  }

  /** Splitting `a + [sep] + b` peels off `a` when `a` has no separator. */
  lemma {:induction false} SplitAt(a: string, sep: char, b: string)
    requires sep !in a
    ensures Split(a + [sep] + b, sep) == [a] + Split(b, sep)
    decreases |a|
  {
    if a == [] {
      assert a + [sep] + b == [sep] + b;
      assert ([sep] + b)[1..] == b;
    } else {
      var s := a + [sep] + b;
      assert s[0] == a[0];
      assert s[1..] == a[1..] + [sep] + b;
      SplitAt(a[1..], sep, b);
      assert [a[0]] + a[1..] == a;
    }
  }

  /** A string that splits into one piece is that piece, and holds no
      separator. */
  lemma {:induction false} SplitOne(s: string, sep: char)
    requires |Split(s, sep)| == 1
    ensures Split(s, sep) == [s] && sep !in s
    decreases |s|
  {
    if s != [] {
      assert s[0] != sep;
      var rest := Split(s[1..], sep);
      SplitOne(s[1..], sep);
      assert [s[0]] + s[1..] == s;
    }
  }

  /** A string that splits into two pieces is the first piece, the
      separator and the second piece. */
  lemma {:induction false} SplitTwo(s: string, sep: char)
    requires |Split(s, sep)| == 2
    ensures var parts := Split(s, sep);
      s == parts[0] + [sep] + parts[1]
    decreases |s|
  {
    var parts := Split(s, sep);
    if s[0] == sep {
      SplitOne(s[1..], sep);
      assert parts == [[]] + Split(s[1..], sep);
      assert s == [sep] + s[1..];
    } else {
      var rest := Split(s[1..], sep);
      SplitTwo(s[1..], sep);
      assert parts[0] == [s[0]] + rest[0] && parts[1] == rest[1];
      assert s == [s[0]] + s[1..];
    }
  }

  /** `sep.join(parts)`. */
  function Join(sep: string, parts: seq<string>): string
    decreases |parts|
  {
    if |parts| == 0 then []
    else if |parts| == 1 then parts[0]
    else parts[0] + sep + Join(sep, parts[1..])
  }

  /** Joining on a one-character separator that no piece contains, then
      splitting on it, gives back the pieces. */
  lemma {:induction false} SplitJoin(parts: seq<string>, sep: char)
    requires |parts| >= 1
    requires forall i :: 0 <= i < |parts| ==> sep !in parts[i]
    ensures Split(Join([sep], parts), sep) == parts
    decreases |parts|
  {
    if |parts| == 1 {
      SplitNoSep(parts[0], sep);
    } else {
      SplitAt(parts[0], sep, Join([sep], parts[1..]));
      SplitJoin(parts[1..], sep);
      assert [parts[0]] + parts[1..] == parts;
    }
  }

  /** Splitting a string at one separator splits each side on its own. */
  lemma {:induction false} SplitConcat(a: string, sep: char, b: string)
    ensures Split(a + [sep] + b, sep) == Split(a, sep) + Split(b, sep)
    decreases |a|
  {
    if a == [] {
      assert a + [sep] + b == [sep] + b;
      assert ([sep] + b)[1..] == b;
    } else {
      var s := a + [sep] + b;
      assert s[0] == a[0];
      assert s[1..] == a[1..] + [sep] + b;
      SplitConcat(a[1..], sep, b);
    }
  }

  /** The pieces of every string of `parts`, in order. */
  function SplitEach(parts: seq<string>, sep: char): (pieces: seq<string>)
    ensures |pieces| >= |parts|
    decreases |parts|
  {
    if parts == [] then [] else Split(parts[0], sep) + SplitEach(parts[1..], sep)
  }

  lemma {:induction false} SplitEachConcat(a: seq<string>, b: seq<string>, sep: char)
    ensures SplitEach(a + b, sep) == SplitEach(a, sep) + SplitEach(b, sep)
    decreases |a|
  {
    if a == [] {
      assert a + b == b;
    } else {
      assert (a + b)[0] == a[0];
      assert (a + b)[1..] == a[1..] + b;
      SplitEachConcat(a[1..], b, sep);
      var p := Split(a[0], sep);
      assert p + (SplitEach(a[1..], sep) + SplitEach(b, sep)) == (p + SplitEach(a[1..], sep)) + SplitEach(b, sep);
    }
  }

  /** A string without the separator stays one piece among the others. */
  lemma SplitEachAround(a: seq<string>, s: string, b: seq<string>, sep: char)
    requires sep !in s
    ensures SplitEach(a + [s] + b, sep) == SplitEach(a, sep) + [s] + SplitEach(b, sep)
  {
    SplitEachConcat(a + [s], b, sep);
    SplitEachConcat(a, [s], sep);
    SplitNoSep(s, sep);
    assert SplitEach([s], sep) == [s] by {
      assert [s][1..] == [];
    }
  }

  /** Strings without the separator are their own pieces. */
  lemma {:induction false} SplitEachPlain(parts: seq<string>, sep: char)
    requires forall i :: 0 <= i < |parts| ==> sep !in parts[i]
    ensures SplitEach(parts, sep) == parts
    decreases |parts|
  {
    if parts != [] {
      SplitNoSep(parts[0], sep);
      SplitEachPlain(parts[1..], sep);
      assert [parts[0]] + parts[1..] == parts;
    }
  }

  /** Splitting a join on its separator gives the pieces of every part. */
  lemma {:induction false} SplitJoinAll(parts: seq<string>, sep: char)
    requires |parts| >= 1
    ensures Split(Join([sep], parts), sep) == SplitEach(parts, sep)
    decreases |parts|
  {
    if |parts| == 1 {
      assert SplitEach(parts[1..], sep) == [];
    } else {
      SplitConcat(parts[0], sep, Join([sep], parts[1..]));
      SplitJoinAll(parts[1..], sep);
    }
  }

  /** A part without the separator is a whole piece of the join, after the pieces of the parts before it. */
  lemma JoinedPart(parts: seq<string>, k: nat, sep: char)
    requires k < |parts| && sep !in parts[k]
    ensures var pieces := Split(Join([sep], parts), sep);
      var p := |SplitEach(parts[..k], sep)|;
      p < |pieces| && pieces[p] == parts[k]
  {
    SplitJoinAll(parts, sep);
    assert parts == parts[..k] + [parts[k]] + parts[k + 1..];
    SplitEachAround(parts[..k], parts[k], parts[k + 1..], sep);
  }

  /** A join holds a character only where a part or the separator does. */
  lemma {:induction false} JoinWithout(sep: string, parts: seq<string>, c: char)
    requires c !in sep
    requires forall i :: 0 <= i < |parts| ==> c !in parts[i]
    ensures c !in Join(sep, parts)
    decreases |parts|
  {
    if |parts| > 1 {
      JoinWithout(sep, parts[1..], c);
      assert parts[0] in parts;
    }
  }
}
