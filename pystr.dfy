/**
 * The few Python string and integer built-ins that the add-on's logic relies on,
 * written out with Python's semantics: `str.strip`, `str.split`, `str.join`,
 * `str.replace`, `str.startswith`, `str.capitalize`, `int()`, `str(int)`, the
 * code-point order of `str <`, and `sorted()` over a set of strings.
 */
module PyStr {

  datatype Option<T> = None | Some(value: T)

  // ---------------------------------------------------------------------------
  // Characters
  // ---------------------------------------------------------------------------

  predicate IsDigit(c: char) { '0' <= c <= '9' }

  predicate AllDigits(s: string) { forall i :: 0 <= i < |s| ==> IsDigit(s[i]) }

  /** Python's `str.isspace` for one character (bidirectional class WS, B or S, or category Zs). */
  predicate IsSpace(c: char) {
    var n := c as int;
    n == 32 || 9 <= n <= 13 || 28 <= n <= 31 || n == 0x85 || n == 0xA0 || n == 0x1680
    || 0x2000 <= n <= 0x200A || n == 0x2028 || n == 0x2029 || n == 0x202F || n == 0x205F
    || n == 0x3000
  }

  predicate AllSpace(s: string) { forall i :: 0 <= i < |s| ==> IsSpace(s[i]) }

  predicate IsLowerAscii(c: char) { 'a' <= c <= 'z' }

  predicate IsUpperAscii(c: char) { 'A' <= c <= 'Z' }

  function ToUpper(c: char): (r: char)
    ensures !IsLowerAscii(r)
    ensures IsUpperAscii(c) || IsLowerAscii(c) || r == c
  {
    if IsLowerAscii(c) then (c as int - 32) as char else c
  }

  function ToLower(c: char): (r: char)
    ensures !IsUpperAscii(r)
    ensures IsUpperAscii(c) || IsLowerAscii(c) || r == c
  {
    if IsUpperAscii(c) then (c as int + 32) as char else c
  }

  function LowerAll(s: string): (r: string)
    ensures |r| == |s|
    ensures forall i :: 0 <= i < |s| ==> r[i] == ToLower(s[i])
  {
    if s == [] then [] else [ToLower(s[0])] + LowerAll(s[1..])
  }

  /**
   * `str.capitalize()`: the first character upper-cased, every other character
   * lower-cased (ASCII letters only; see README).
   */
  function Capitalize(s: string): (r: string)
    ensures |r| == |s|
    ensures |s| > 0 ==> r[0] == ToUpper(s[0])
    ensures forall i :: 0 < i < |s| ==> r[i] == ToLower(s[i])
  {
    if s == [] then [] else [ToUpper(s[0])] + LowerAll(s[1..])
  }

  // ---------------------------------------------------------------------------
  // startswith, join, split, replace
  // ---------------------------------------------------------------------------

  predicate StartsWith(s: string, p: string) { |p| <= |s| && s[..|p|] == p }

  /** `sep.join(parts)`. */
  function Join(parts: seq<string>, sep: string): string
  {
    if |parts| == 0 then ""
    else if |parts| == 1 then parts[0]
    else parts[0] + sep + Join(parts[1..], sep)
  }

  /** `s.split(sep)` for a one-character separator: every occurrence splits, empty parts are kept. */
  function Split(s: string, sep: char): (parts: seq<string>)
    ensures |parts| >= 1
    decreases |s|
  {
    if |s| == 0 then [""]
    else if s[0] == sep then [""] + Split(s[1..], sep)
    else
      var rest := Split(s[1..], sep);
      [[s[0]] + rest[0]] + rest[1..]
  }

  lemma {:induction false} SplitNoSep(s: string, sep: char)
    requires sep !in s
    ensures Split(s, sep) == [s]
    decreases |s|
  {
    if |s| > 0 {
      SplitNoSep(s[1..], sep);
      assert [s[0]] + s[1..] == s;
    }
  }

  lemma {:induction false} SplitAtFirst(x: string, sep: char, y: string)
    requires sep !in x
    ensures Split(x + [sep] + y, sep) == [x] + Split(y, sep)
    decreases |x|
  {
    var s := x + [sep] + y;
    if |x| == 0 {
      assert s[0] == sep && s[1..] == y;
    } else {
      assert s[0] == x[0] && s[1..] == x[1..] + [sep] + y;
      SplitAtFirst(x[1..], sep, y);
      assert [x[0]] + x[1..] == x;
    }
  }

  /** Joining parts that do not contain the separator and splitting again gives the parts back. */
  lemma {:induction false} SplitJoin(parts: seq<string>, sep: char)
    requires |parts| >= 1
    requires forall i :: 0 <= i < |parts| ==> sep !in parts[i]
    ensures Split(Join(parts, [sep]), sep) == parts
  {
    if |parts| == 1 {
      SplitNoSep(parts[0], sep);
    } else {
      SplitJoin(parts[1..], sep);
      SplitAtFirst(parts[0], sep, Join(parts[1..], [sep]));
      assert [parts[0]] + parts[1..] == parts;
    }
  }

  /** The parts with `ch` added to the last one. */
  function AppendToLast(p: seq<string>, ch: char): (r: seq<string>)
    requires |p| > 0
    ensures |r| == |p| && r[|r| - 1] == p[|p| - 1] + [ch] && r[..|r| - 1] == p[..|p| - 1]
  {
    p[..|p| - 1] + [p[|p| - 1] + [ch]]
  }

  lemma AppendToLastCons(x: string, q: seq<string>, ch: char)
    requires |q| > 0
    ensures AppendToLast([x] + q, ch) == [x] + AppendToLast(q, ch)
  {
    assert ([x] + q)[..|q|] == [x] + q[..|q| - 1];
  }

  lemma ConcatAssoc(a: string, b: string, c: string)
    ensures (a + b) + c == a + (b + c)
  {
  }

  /** A character other than the separator appended to the string ends up at the end of the last part. */
  lemma {:induction false} SplitAppend(s: string, sep: char, ch: char)
    requires ch != sep
    ensures Split(s + [ch], sep) == AppendToLast(Split(s, sep), ch)
    decreases |s|
  {
    var t := s + [ch];
    if |s| == 0 {
      assert t == [ch] && t[1..] == [];
      assert Split([], sep) == [""] && [ch] + "" == [ch];
      assert Split(t, sep) == [[ch]];
      assert AppendToLast([""], ch) == [[ch]];
    } else {
      assert t[0] == s[0] && t[1..] == s[1..] + [ch];
      SplitAppend(s[1..], sep, ch);
      var q := Split(s[1..], sep);
      if s[0] == sep {
        AppendToLastCons("", q, ch);
      } else if |q| == 1 {
        ConcatAssoc([s[0]], q[0], [ch]);
      } else {
        assert q == [q[0]] + q[1..];
        AppendToLastCons(q[0], q[1..], ch);
        AppendToLastCons([s[0]] + q[0], q[1..], ch);
      }
    }
  }

  /** Splitting and joining again with the same separator gives the string back. */
  lemma {:induction false} JoinSplit(s: string, sep: char)
    ensures Join(Split(s, sep), [sep]) == s
    decreases |s|
  {
    if |s| > 0 {
      var rest := Split(s[1..], sep);
      JoinSplit(s[1..], sep);
      assert s == [s[0]] + s[1..];
      if s[0] == sep {
        JoinCons("", rest, [sep]);
      } else if |rest| == 1 {
        assert Split(s, sep) == [[s[0]] + rest[0]];
      } else {
        var parts := [[s[0]] + rest[0]] + rest[1..];
        assert Split(s, sep) == parts;
        JoinCons([s[0]] + rest[0], rest[1..], [sep]);
        JoinCons(rest[0], rest[1..], [sep]);
        assert [rest[0]] + rest[1..] == rest;
      }
    }
  }

  lemma JoinCons(x: string, parts: seq<string>, sep: string)
    requires |parts| >= 1
    ensures Join([x] + parts, sep) == x + sep + Join(parts, sep)
  {
    assert ([x] + parts)[1..] == parts;
  }

  /** `s.replace(pat, rep)`: left to right, non-overlapping occurrences. */
  function Replace(s: string, pat: string, rep: string): string
    requires |pat| > 0
    decreases |s|
  {
    if |s| < |pat| then s
    else if s[..|pat|] == pat then rep + Replace(s[|pat|..], pat, rep)
    else [s[0]] + Replace(s[1..], pat, rep)
  }

  lemma {:induction false} ReplaceAbsent(s: string, pat: string, rep: string)
    requires |pat| > 0 && pat[0] !in s
    ensures Replace(s, pat, rep) == s
    decreases |s|
  {
    if |s| >= |pat| {
      assert s[..|pat|][0] == s[0];
      ReplaceAbsent(s[1..], pat, rep);
      assert [s[0]] + s[1..] == s;
    }
  }

  lemma {:induction false} ReplaceAfter(x: string, pat: string, rep: string, y: string)
    requires |pat| > 0 && pat[0] !in x
    ensures Replace(x + pat + y, pat, rep) == x + rep + Replace(y, pat, rep)
    decreases |x|
  {
    var s := x + pat + y;
    if |x| == 0 {
      assert s == pat + y;
      assert s[..|pat|] == pat && s[|pat|..] == y;
    } else {
      assert s[0] == x[0] && x[0] in x;
      assert s[..|pat|] != pat by { assert s[..|pat|][0] == s[0]; }
      assert Replace(s, pat, rep) == [s[0]] + Replace(s[1..], pat, rep);
      assert s[1..] == x[1..] + pat + y;
      ReplaceAfter(x[1..], pat, rep, y);
      assert [x[0]] + x[1..] == x;
    }
  }

  /** Replacing a separator whose first character no part contains turns one join into the other. */
  lemma {:induction false} ReplaceJoin(parts: seq<string>, pat: string, rep: string)
    requires |pat| > 0
    requires forall i :: 0 <= i < |parts| ==> pat[0] !in parts[i]
    ensures Replace(Join(parts, pat), pat, rep) == Join(parts, rep)
  {
    if |parts| == 0 {
    } else if |parts| == 1 {
      ReplaceAbsent(parts[0], pat, rep);
    } else {
      ReplaceJoin(parts[1..], pat, rep);
      ReplaceAfter(parts[0], pat, rep, Join(parts[1..], pat));
    }
  }

  // ---------------------------------------------------------------------------
  // strip
  // ---------------------------------------------------------------------------

  function LStrip(s: string): (r: string)
    ensures |r| <= |s| && r == s[|s| - |r|..]
    ensures AllSpace(s[..|s| - |r|])
    ensures |r| > 0 ==> !IsSpace(r[0])
  {
    if |s| > 0 && IsSpace(s[0]) then LStrip(s[1..]) else s
  }

  function RStrip(s: string): (r: string)
    ensures |r| <= |s| && r == s[..|r|]
    ensures AllSpace(s[|r|..])
    ensures |r| > 0 ==> !IsSpace(r[|r| - 1])
  {
    if |s| > 0 && IsSpace(s[|s| - 1]) then RStrip(s[..|s| - 1]) else s
  }

  /** `s.strip()`: whitespace removed at both ends. */
  function Strip(s: string): (r: string)
    ensures |r| > 0 ==> !IsSpace(r[0]) && !IsSpace(r[|r| - 1])
  {
    LStrip(RStrip(s))
  }

  /** `s.strip()` cuts `s` into whitespace, the result, and whitespace. */
  lemma StripShape(s: string)
    ensures exists i, j :: 0 <= i <= j <= |s| && Strip(s) == s[i..j] && AllSpace(s[..i]) && AllSpace(s[j..])
  {
    var t := RStrip(s);
    var r := LStrip(t);
    var i, j := |t| - |r|, |t|;
    assert r == s[i..j];
    assert s[..i] == t[..i];
  }

  lemma {:induction false} StripNoSpace(s: string)
    requires |s| > 0 ==> !IsSpace(s[0]) && !IsSpace(s[|s| - 1])
    ensures Strip(s) == s
  {
    assert RStrip(s) == s;
    assert LStrip(s) == s;
  }

  lemma DigitsNotSpace(s: string)
    requires |s| > 0 && AllDigits(s)
    ensures !IsSpace(s[0]) && !IsSpace(s[|s| - 1])
  {
    assert IsDigit(s[0]) && IsDigit(s[|s| - 1]);
  }

  // ---------------------------------------------------------------------------
  // Decimal digits: str(int) and int()
  // ---------------------------------------------------------------------------

  function DigitChar(d: nat): (c: char)
    requires d < 10
    ensures IsDigit(c)
  {
    ('0' as int + d) as char
  }

  function DigitValue(c: char): (d: nat)
    requires IsDigit(c)
    ensures d < 10
  {
    c as int - '0' as int
  }

  /** The value of a run of decimal digits, most significant first. */
  function DigitsValue(s: string): nat
    requires AllDigits(s)
  {
    if s == [] then 0 else 10 * DigitsValue(s[..|s| - 1]) + DigitValue(s[|s| - 1])
  }

  /** `str(n)` for a natural number: no leading zero except for 0 itself. */
  function NatToString(n: nat): (s: string)
    ensures |s| > 0 && AllDigits(s)
    ensures s[0] == '0' ==> n == 0
  {
    if n < 10 then [DigitChar(n)] else NatToString(n / 10) + [DigitChar(n % 10)]
  }

  lemma {:induction false} NatToStringValue(n: nat)
    ensures DigitsValue(NatToString(n)) == n
  {
    var s := NatToString(n);
    if n >= 10 {
      NatToStringValue(n / 10);
      assert s[..|s| - 1] == NatToString(n / 10);
    }
  }

  lemma {:induction false} LeadingZero(s: string)
    requires AllDigits(s)
    ensures AllDigits("0" + s) && DigitsValue("0" + s) == DigitsValue(s)
    decreases |s|
  {
    if s != [] {
      var t := "0" + s;
      assert t[..|t| - 1] == "0" + s[..|s| - 1];
      LeadingZero(s[..|s| - 1]);
    }
  }

  /** `str(i)` for any integer. */
  function IntToString(i: int): (s: string)
    ensures |s| > 0 && !IsSpace(s[0]) && !IsSpace(s[|s| - 1])
    ensures '.' !in s && ',' !in s
  {
    var s := if i < 0 then "-" + NatToString(-i) else NatToString(i);
    assert forall k :: 0 <= k < |s| ==> s[k] == '-' || IsDigit(s[k]);
    s
  }

  /**
   * `int(s)` for a base-10 string: surrounding whitespace ignored, an optional
   * sign, then at least one ASCII digit; anything else is the ValueError case.
   */
  function PyInt(s: string): Option<int>
  {
    var t := Strip(s);
    if |t| > 0 && (t[0] == '+' || t[0] == '-') then
      (if |t| > 1 && AllDigits(t[1..]) then
         var v: int := DigitsValue(t[1..]);
         Some(if t[0] == '-' then -v else v)
       else None)
    else if |t| > 0 && AllDigits(t) then Some(DigitsValue(t))
    else None
  }

  /** A stripped string that is not a digit run, with or without a leading sign, is a ValueError. */
  lemma NoDigitRunNotInt(t: string)
    requires Strip(t) == t
    requires !AllDigits(t) && (|t| > 1 ==> !AllDigits(t[1..]))
    ensures PyInt(t).None?
  {
  }

  lemma PyIntNat(s: string)
    requires |s| > 0 && AllDigits(s)
    ensures PyInt(s) == Some(DigitsValue(s))
  {
    DigitsNotSpace(s);
    StripNoSpace(s);
    assert IsDigit(s[0]);
  }

  lemma PyIntOfDigitsNewline(s: string)
    requires |s| > 0 && AllDigits(s)
    ensures PyInt(s + "\n") == Some(DigitsValue(s))
  {
    var t := s + "\n";
    assert IsSpace(t[|t| - 1]);
    assert t[..|t| - 1] == s;
    assert RStrip(t) == RStrip(s);
    PyIntNat(s);
  }

  /** `int(str(i)) == i`. */
  lemma IntStringRoundTrip(i: int)
    ensures PyInt(IntToString(i)) == Some(i)
  {
    var s := IntToString(i);
    StripNoSpace(s);
    if i < 0 {
      assert s[1..] == NatToString(-i);
      NatToStringValue(-i);
    } else {
      NatToStringValue(i);
    }
  }

  /** `f"{n:03}"`: decimal, left-padded with zeros to at least three digits. */
  function Pad3(n: nat): (s: string)
    ensures |s| >= 3 && AllDigits(s)
    ensures DigitsValue(s) == n
    ensures |NatToString(n)| >= 3 ==> s == NatToString(n)
    ensures |NatToString(n)| < 3 ==> |s| == 3 && s[3 - |NatToString(n)|..] == NatToString(n)
    ensures forall i :: 0 <= i < |s| - |NatToString(n)| ==> s[i] == '0'
  {
    var d := NatToString(n);
    NatToStringValue(n);
    if |d| >= 3 then d
    else if |d| == 2 then (LeadingZero(d); "0" + d)
    else (LeadingZero(d); LeadingZero("0" + d); assert "0" + ("0" + d) == "00" + d; "00" + d)
  }

  /** The number of decimal digits of `n` against the powers of ten up to 1000. */
  lemma {:induction false} NatToStringWidth(n: nat)
    ensures |NatToString(n)| >= 2 <==> n >= 10
    ensures |NatToString(n)| >= 3 <==> n >= 100
    ensures |NatToString(n)| >= 4 <==> n >= 1000
  {
    if n >= 10 { NatToStringWidth(n / 10); }
  }

  /** Below 1000 the padded number is exactly three digits; from 100 on it is the plain decimal. */
  lemma Pad3Width(n: nat)
    ensures n < 1000 ==> |Pad3(n)| == 3
    ensures n >= 100 ==> Pad3(n) == NatToString(n)
    ensures n < 10 ==> Pad3(n) == "00" + NatToString(n)
  {
    NatToStringWidth(n);
  }

  lemma Pad3Injective(a: nat, b: nat)
    requires Pad3(a) == Pad3(b)
    ensures a == b
  {
  }

  // ---------------------------------------------------------------------------
  // Python's str order and sorted()
  // ---------------------------------------------------------------------------

  /** `a < b` on Python strings: lexicographic by code point, a proper prefix first. */
  predicate StrLess(a: string, b: string)
  {
    |b| > 0 && (|a| == 0 || a[0] < b[0] || (a[0] == b[0] && StrLess(a[1..], b[1..])))
  }

  lemma {:induction false} StrLessIrreflexive(a: string)
    ensures !StrLess(a, a)
  {
    if |a| > 0 { StrLessIrreflexive(a[1..]); }
  }

  lemma {:induction false} StrLessTransitive(a: string, b: string, c: string)
    requires StrLess(a, b) && StrLess(b, c)
    ensures StrLess(a, c)
  {
    if |a| > 0 && a[0] == b[0] && b[0] == c[0] {
      StrLessTransitive(a[1..], b[1..], c[1..]);
    }
  }

  lemma {:induction false} StrLessTotal(a: string, b: string)
    ensures a == b || StrLess(a, b) || StrLess(b, a)
  {
    if |a| > 0 && |b| > 0 && a[0] == b[0] {
      StrLessTotal(a[1..], b[1..]);
      if a[1..] == b[1..] {
        assert a == [a[0]] + a[1..] && b == [b[0]] + b[1..];
      }
    }
  }

  lemma StrLessAsymmetric(a: string, b: string)
    requires StrLess(a, b)
    ensures !StrLess(b, a)
  {
    if StrLess(b, a) {
      StrLessTransitive(a, b, a);
      StrLessIrreflexive(a);
    }
  }

  ghost predicate StrictlySorted(r: seq<string>)
  {
    forall i, j :: 0 <= i < j < |r| ==> StrLess(r[i], r[j])
  }

  function Elems(r: seq<string>): set<string>
  {
    set x | x in r
  }

  /** Every non-empty set of strings has a least element under `StrLess`. */
  lemma {:induction false} Minimum(s: set<string>) returns (m: string)
    requires s != {}
    ensures m in s && forall x :: x in s && x != m ==> StrLess(m, x)
    decreases |s|
  {
    var y :| y in s;
    if s == {y} {
      m := y;
    } else {
      var m' := Minimum(s - {y});
      StrLessTotal(m', y);
      if StrLess(y, m') {
        m := y;
        forall x | x in s && x != y ensures StrLess(y, x) {
          if x != m' { StrLessTransitive(y, m', x); }
        }
      } else {
        m := m';
      }
    }
  }

  lemma MinimumExists(s: set<string>)
    requires s != {}
    ensures exists m :: m in s && forall x :: x in s && x != m ==> StrLess(m, x)
  {
    var m := Minimum(s);
  }

  lemma ElemsConcat(a: seq<string>, b: seq<string>)
    ensures Elems(a + b) == Elems(a) + Elems(b)
  {
    forall x ensures x in Elems(a + b) <==> x in Elems(a) || x in Elems(b) {
      if x in Elems(a + b) {
        var k :| 0 <= k < |a + b| && (a + b)[k] == x;
        if k < |a| { assert a[k] == x; } else { assert b[k - |a|] == x; }
      }
      if x in Elems(a) {
        var k :| 0 <= k < |a| && a[k] == x;
        assert (a + b)[k] == x;
      }
      if x in Elems(b) {
        var k :| 0 <= k < |b| && b[k] == x;
        assert (a + b)[|a| + k] == x;
      }
    }
  }

  /** The tail of a strictly sorted sequence holds every element but the first. */
  lemma SortedTail(r: seq<string>)
    requires StrictlySorted(r) && |r| > 0
    ensures StrictlySorted(r[1..])
    ensures Elems(r[1..]) == Elems(r) - {r[0]}
    ensures forall x :: x in Elems(r) && x != r[0] ==> StrLess(r[0], x)
  {
    assert r == [r[0]] + r[1..];
    ElemsConcat([r[0]], r[1..]);
    forall x | x in Elems(r[1..]) ensures x != r[0] {
      var k :| 0 <= k < |r[1..]| && r[1..][k] == x;
      assert StrLess(r[0], r[k + 1]);
      if x == r[0] { StrLessIrreflexive(x); }
    }
    forall x | x in Elems(r) && x != r[0] ensures StrLess(r[0], x) {
      var k :| 0 <= k < |r| && r[k] == x;
    }
  }

  lemma ElemsEmpty(r: seq<string>)
    ensures Elems(r) == {} <==> r == []
  {
    if r != [] { assert r[0] in Elems(r); }
  }

  lemma ConsSorted(m: string, t: seq<string>)
    requires StrictlySorted(t)
    requires forall x :: x in Elems(t) ==> StrLess(m, x)
    ensures StrictlySorted([m] + t)
  {
    var r := [m] + t;
    forall i, j | 0 <= i < j < |r| ensures StrLess(r[i], r[j]) {
      assert r[j] == t[j - 1] && r[j] in Elems(t);
      if i > 0 { assert r[i] == t[i - 1]; }
    }
  }

  /** Every finite set of strings has a strictly increasing enumeration: its least element, then the rest's. */
  lemma {:induction false} SortedEnumeration(s: set<string>) returns (r: seq<string>)
    ensures StrictlySorted(r) && Elems(r) == s
    decreases |s|
  {
    if s == {} {
      r := [];
    } else {
      var m := Minimum(s);
      var t := SortedEnumeration(s - {m});
      r := [m] + t;
      ElemsConcat([m], t);
      assert Elems([m]) == {m};
      ConsSorted(m, t);
    }
  }

  lemma SortedEnumerationExists(s: set<string>)
    ensures exists r :: StrictlySorted(r) && Elems(r) == s
  {
    var r := SortedEnumeration(s);
  }

  /** Two strictly sorted sequences with the same elements are the same sequence. */
  lemma {:induction false} SortedUnique(r1: seq<string>, r2: seq<string>)
    requires StrictlySorted(r1) && StrictlySorted(r2) && Elems(r1) == Elems(r2)
    ensures r1 == r2
    decreases |r1|
  {
    if |r1| == 0 || |r2| == 0 {
      ElemsEmpty(r1);
      ElemsEmpty(r2);
    } else {
      SortedTail(r1);
      SortedTail(r2);
      assert r1[0] in Elems(r2) && r2[0] in Elems(r1);
      if r1[0] != r2[0] {
        StrLessAsymmetric(r1[0], r2[0]);
      }
      SortedUnique(r1[1..], r2[1..]);
      assert r1 == [r1[0]] + r1[1..] && r2 == [r2[0]] + r2[1..];
    }
  }

  /** `sorted(s)` for a set of strings, as a value: its unique strictly increasing enumeration. */
  ghost function SortedSet(s: set<string>): (r: seq<string>)
    ensures StrictlySorted(r) && Elems(r) == s
  {
    SortedEnumerationExists(s);
    var r :| StrictlySorted(r) && Elems(r) == s;
    r
  }

  /** One step of the selection sort: appending the least remaining element keeps the order. */
  lemma SortedAppend(r: seq<string>, rest: set<string>, m: string)
    requires StrictlySorted(r)
    requires forall x, y :: x in Elems(r) && y in rest ==> StrLess(x, y)
    requires m in rest && forall x :: x in rest && x != m ==> StrLess(m, x)
    ensures Elems(r + [m]) == Elems(r) + {m}
    ensures StrictlySorted(r + [m])
    ensures forall x, y :: x in Elems(r + [m]) && y in rest - {m} ==> StrLess(x, y)
  {
    ElemsConcat(r, [m]);
    assert Elems([m]) == {m};
    forall i, j | 0 <= i < j < |r + [m]| ensures StrLess((r + [m])[i], (r + [m])[j]) {
      assert (r + [m])[i] == r[i] && r[i] in Elems(r);
      if j < |r| { assert (r + [m])[j] == r[j]; }
    }
    forall x, y | x in Elems(r + [m]) && y in rest - {m} ensures StrLess(x, y) {
      if x == m { } else { assert x in Elems(r); }
    }
  }

  /** `sorted(s)`: repeatedly takes the least remaining element. */
  method SortSet(s: set<string>) returns (r: seq<string>)
    ensures r == SortedSet(s)
  {
    r := [];
    var rest := s;
    while rest != {}
      invariant rest <= s && Elems(r) == s - rest
      invariant StrictlySorted(r)
      invariant forall x, y :: x in Elems(r) && y in rest ==> StrLess(x, y)
      decreases |rest|
    {
      MinimumExists(rest);
      var m :| m in rest && forall x :: x in rest && x != m ==> StrLess(m, x);
      SortedAppend(r, rest, m);
      r, rest := r + [m], rest - {m};
    }
    SortedUnique(r, SortedSet(s));
  }
}
