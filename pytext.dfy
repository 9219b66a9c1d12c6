/**
 * The Python `str` operations the schedule scripts rely on, on `seq<char>`.
 * Whitespace is Python's full `str.isspace` set; case mapping covers ASCII letters.
 */
module PyText {
  import opened Options

  /** `c.isspace()`: the separators of `split()` and what `strip()` removes. */
  predicate IsSpace(c: char) {
    var n := c as int;
    (9 <= n <= 13) || (28 <= n <= 32) || n == 0x85 || n == 0xA0 || n == 0x1680 ||
    (0x2000 <= n <= 0x200A) || n == 0x2028 || n == 0x2029 || n == 0x202F ||
    n == 0x205F || n == 0x3000
  }

  /** No character of `s` is whitespace. */
  predicate NoSpace(s: string) {
    forall i :: 0 <= i < |s| ==> !IsSpace(s[i])
  }

  /** Every character of `s` is whitespace. */
  predicate AllSpace(s: string) {
    forall i :: 0 <= i < |s| ==> IsSpace(s[i])
  }

  predicate IsUpperAscii(c: char) { 'A' <= c <= 'Z' }
  predicate IsLowerAscii(c: char) { 'a' <= c <= 'z' }
  predicate IsLetter(c: char) { IsUpperAscii(c) || IsLowerAscii(c) }
  predicate IsDigit(c: char) { '0' <= c <= '9' }

  function LowerChar(c: char): (r: char)
    ensures !IsUpperAscii(r)
    ensures IsLetter(c) <==> IsLetter(r)
  {
    if IsUpperAscii(c) then (c as int + 32) as char else c
  }

  function UpperChar(c: char): (r: char)
    ensures !IsLowerAscii(r)
    ensures IsLetter(c) <==> IsLetter(r)
  {
    if IsLowerAscii(c) then (c as int - 32) as char else c
  }

  /** `s.lower()` */
  function Lower(s: string): (r: string)
    ensures |r| == |s|
    ensures forall i :: 0 <= i < |r| ==> !IsUpperAscii(r[i])
  {
    seq(|s|, i requires 0 <= i < |s| => LowerChar(s[i]))
  }

  /** `s.upper()` */
  function Upper(s: string): (r: string)
    ensures |r| == |s|
    ensures forall i :: 0 <= i < |r| ==> !IsLowerAscii(r[i])
  {
    seq(|s|, i requires 0 <= i < |s| => UpperChar(s[i]))
  }

  /**
   * `s.title()`: a letter is upper-cased when the character before it is not
   * a letter, and lower-cased when it is.
   */
  function Title(s: string): (r: string)
    ensures |r| == |s|
  {
    seq(|s|, i requires 0 <= i < |s| =>
      if i > 0 && IsLetter(s[i - 1]) then LowerChar(s[i]) else UpperChar(s[i]))
  }

  /** Lower-casing twice is lower-casing once. */
  lemma LowerIdempotent(s: string)
    ensures Lower(Lower(s)) == Lower(s)
  {
  }

  predicate StartsWith(s: string, prefix: string) {
    |prefix| <= |s| && s[..|prefix|] == prefix
  }

  /** `sub in s` */
  predicate Contains(s: string, sub: string)
    decreases |s|
  {
    StartsWith(s, sub) || (|s| > 0 && Contains(s[1..], sub))
  }

  /** `sub` occurs in `s` starting at position `i`. */
  predicate OccursAt(s: string, sub: string, i: int) {
    0 <= i <= |s| - |sub| && s[i..i + |sub|] == sub
  }

  /** `Contains` holds exactly when `sub` occurs at some position of `s`. */
  lemma {:induction false} ContainsAt(s: string, sub: string)
    ensures Contains(s, sub) <==> exists i :: OccursAt(s, sub, i)
    decreases |s|
  {
    if |s| > 0 {
      ContainsAt(s[1..], sub);
      if StartsWith(s, sub) {
        assert OccursAt(s, sub, 0);
      }
      if Contains(s[1..], sub) {
        var i :| OccursAt(s[1..], sub, i);
        assert s[1..][i..i + |sub|] == s[i + 1..i + 1 + |sub|];
        assert OccursAt(s, sub, i + 1);
      }
      if exists i :: OccursAt(s, sub, i) {
        var i :| OccursAt(s, sub, i);
        if i > 0 {
          assert s[1..][i - 1..i - 1 + |sub|] == s[i..i + |sub|];
          assert OccursAt(s[1..], sub, i - 1);
        }
      }
    } else if |sub| == 0 {
      assert OccursAt(s, sub, 0);
    }
  }

  /** A string without whitespace contains no string that has whitespace. */
  lemma NoSpaceExcludes(s: string, sub: string)
    requires NoSpace(s) && !NoSpace(sub)
    ensures !Contains(s, sub)
  {
    var j :| 0 <= j < |sub| && IsSpace(sub[j]);
    forall i | 0 <= i <= |s| - |sub|
      ensures !OccursAt(s, sub, i)
    {
      assert s[i..i + |sub|][j] == s[i + j];
    }
    ContainsAt(s, sub);
  }

  /** The leading whitespace of `s` removed (`s.lstrip()`). */
  function LStrip(s: string): (r: string)
    ensures |r| <= |s| && r == s[|s| - |r|..]
    ensures r == [] || !IsSpace(r[0])
    ensures AllSpace(s[..|s| - |r|])
    decreases |s|
  {
    if s != [] && IsSpace(s[0]) then
      var r := LStrip(s[1..]);
      assert s[1..][..|s[1..]| - |r|] == s[1..|s| - |r|];
      r
    else s
  }

  /** The trailing whitespace of `s` removed (`s.rstrip()`). */
  function RStrip(s: string): (r: string)
    ensures |r| <= |s| && r == s[..|r|]
    ensures r == [] || !IsSpace(r[|r| - 1])
    ensures AllSpace(s[|r|..])
    decreases |s|
  {
    if s != [] && IsSpace(s[|s| - 1]) then
      var r := RStrip(s[..|s| - 1]);
      assert s[..|s| - 1][|r|..] + [s[|s| - 1]] == s[|r|..];
      r
    else s
  }

  /** `s.strip()` */
  function Strip(s: string): string {
    RStrip(LStrip(s))
  }

  /** Stripping a string that has no whitespace leaves it as it is. */
  lemma StripNoSpace(s: string)
    requires NoSpace(s)
    ensures Strip(s) == s
  {
  }

  /** Length of the longest prefix of `s` without whitespace. */
  function NonSpaceSpan(s: string): (k: nat)
    ensures k <= |s| && NoSpace(s[..k])
    ensures k < |s| ==> IsSpace(s[k])
    decreases |s|
  {
    if s == [] || IsSpace(s[0]) then 0
    else
      var k := NonSpaceSpan(s[1..]);
      assert s[..k + 1] == [s[0]] + s[1..][..k];
      k + 1
  }

  /** `s.split()`: the maximal runs of non-whitespace characters, in order. */
  function SplitWs(s: string): (tokens: seq<string>)
    ensures forall i :: 0 <= i < |tokens| ==> |tokens[i]| > 0 && NoSpace(tokens[i])
    decreases |s|
  {
    var u := LStrip(s);
    if u == [] then []
    else
      var k := NonSpaceSpan(u);
      [u[..k]] + SplitWs(u[k..])
  }

  /** Whitespace followed by a token: `split()` yields that single token. */
  lemma SplitWsToken(sp: string, t: string)
    requires AllSpace(sp) && |t| > 0 && NoSpace(t)
    ensures SplitWs(sp + t) == [t]
  {
    LStripSpaces(sp, t);
    var k := NonSpaceSpan(t);
    assert k == |t|;
    assert t[..k] == t && t[k..] == [];
    assert SplitWs(sp + t) == [t[..k]] + SplitWs(t[k..]);
    assert SplitWs([]) == [];
  }

  /** `lstrip()` removes exactly a leading run of whitespace before a non-space. */
  lemma {:induction false} LStripSpaces(sp: string, t: string)
    requires AllSpace(sp) && (t == [] || !IsSpace(t[0]))
    ensures LStrip(sp + t) == t
    decreases |sp|
  {
    if sp != [] {
      assert (sp + t)[1..] == sp[1..] + t;
      LStripSpaces(sp[1..], t);
    } else {
      assert sp + t == t;
    }
  }

  /**
   * A token, whitespace and more text: `split()` yields the token and then
   * what `split()` yields for the rest.
   */
  lemma SplitWsCons(t: string, sp: string, rest: string)
    requires |t| > 0 && NoSpace(t) && |sp| > 0 && AllSpace(sp)
    ensures SplitWs(t + sp + rest) == [t] + SplitWs(sp + rest)
  {
    var s := t + sp + rest;
    assert LStrip(s) == s by { assert s[0] == t[0]; }
    NonSpaceSpanOf(t, sp + rest);
    assert s == t + (sp + rest);
    assert s[..|t|] == t && s[|t|..] == sp + rest;
  }

  /** Leading whitespace does not change what `split()` yields. */
  lemma SplitWsLeading(sp: string, t: string)
    requires AllSpace(sp) && (t == [] || !IsSpace(t[0]))
    ensures SplitWs(sp + t) == SplitWs(t)
  {
    LStripSpaces(sp, t);
    LStripSpaces([], t);
    assert [] + t == t;
  }

  /** Three space-free words separated by single spaces split into those words. */
  lemma SplitWsThree(a: string, b: string, c: string)
    requires |a| > 0 && NoSpace(a) && |b| > 0 && NoSpace(b) && |c| > 0 && NoSpace(c)
    ensures SplitWs(a + " " + b + " " + c) == [a, b, c]
  {
    assert a + " " + b + " " + c == a + " " + (b + " " + c);
    SplitWsCons(a, " ", b + " " + c);
    SplitWsLeading(" ", b + " " + c);
    SplitWsCons(b, " ", c);
    SplitWsToken(" ", c);
  }

  lemma {:induction false} NonSpaceSpanOf(t: string, rest: string)
    requires NoSpace(t) && rest != [] && IsSpace(rest[0])
    ensures NonSpaceSpan(t + rest) == |t|
    decreases |t|
  {
    var s := t + rest;
    if t == [] {
      assert s == rest;
    } else {
      assert s[0] == t[0] && !IsSpace(t[0]);
      assert s[1..] == t[1..] + rest;
      assert NoSpace(t[1..]) by {
        forall i | 0 <= i < |t| - 1
          ensures !IsSpace(t[1..][i])
        {
          assert t[1..][i] == t[i + 1];
        }
      }
      NonSpaceSpanOf(t[1..], rest);
      assert NonSpaceSpan(s) == NonSpaceSpan(s[1..]) + 1;
    }
  }

  /** `s.split(sep)` for a non-empty separator: leftmost, non-overlapping splits. */
  function SplitOn(s: string, sep: string): (parts: seq<string>)
    requires |sep| > 0
    ensures |parts| >= 1
    decreases |s|
  {
    if |s| < |sep| then [s]
    else if s[..|sep|] == sep then [""] + SplitOn(s[|sep|..], sep)
    else
      var rest := SplitOn(s[1..], sep);
      [[s[0]] + rest[0]] + rest[1..]
  }

  /** `sep.join(parts)` */
  function Join(parts: seq<string>, sep: string): string
    requires |parts| >= 1
  {
    if |parts| == 1 then parts[0] else parts[0] + sep + Join(parts[1..], sep)
  }

  /** Joining the pieces of a split with the same separator gives the string back. */
  lemma {:induction false} SplitJoin(s: string, sep: string)
    requires |sep| > 0
    ensures Join(SplitOn(s, sep), sep) == s
    decreases |s|
  {
    if |s| < |sep| {
    } else if s[..|sep|] == sep {
      SplitJoin(s[|sep|..], sep);
      JoinCons("", SplitOn(s[|sep|..], sep), sep);
      assert s == sep + s[|sep|..];
    } else {
      SplitJoin(s[1..], sep);
      var rest := SplitOn(s[1..], sep);
      JoinPrepend(s[0], rest, sep);
      assert s == [s[0]] + s[1..];
    }
  }

  lemma JoinCons(p: string, rest: seq<string>, sep: string)
    requires |rest| >= 1
    ensures Join([p] + rest, sep) == p + sep + Join(rest, sep)
  {
    assert ([p] + rest)[1..] == rest;
  }

  lemma JoinPrepend(c: char, rest: seq<string>, sep: string)
    requires |rest| >= 1
    ensures Join([[c] + rest[0]] + rest[1..], sep) == [c] + Join(rest, sep)
  {
    var parts := [[c] + rest[0]] + rest[1..];
    if |rest| > 1 {
      assert parts[1..] == rest[1..];
    }
  }

  /** Splitting on a one-character separator at its first occurrence. */
  lemma {:induction false} SplitOnFirst(a: string, c: char, rest: string)
    requires c !in a
    ensures SplitOn(a + [c] + rest, [c]) == [a] + SplitOn(rest, [c])
    decreases |a|
  {
    var s := a + [c] + rest;
    if a == [] {
      assert s[..1] == [c] && s[1..] == rest;
    } else {
      assert s[..1] != [c] by { assert s[0] == a[0]; }
      assert s[1..] == a[1..] + [c] + rest;
      SplitOnFirst(a[1..], c, rest);
      assert [s[0]] + a[1..] == a;
    }
  }

  /** A string without the separator is not split. */
  lemma {:induction false} SplitOnNone(a: string, c: char)
    requires c !in a
    ensures SplitOn(a, [c]) == [a]
    decreases |a|
  {
    if |a| >= 1 {
      assert a[..1] != [c] by { assert a[0] != c; }
      SplitOnNone(a[1..], c);
      assert [a[0]] + a[1..] == a;
    }
  }

  /** `s.replace(pat, rep)`: every non-overlapping occurrence, left to right. */
  function Replace(s: string, pat: string, rep: string): string
    requires |pat| > 0
    decreases |s|
  {
    if |s| < |pat| then s
    else if s[..|pat|] == pat then rep + Replace(s[|pat|..], pat, rep)
    else [s[0]] + Replace(s[1..], pat, rep)
  }

  function DigitChar(d: nat): (c: char)
    requires d < 10
    ensures IsDigit(c)
  {
    ('0' as int + d) as char
  }

  function DigitValue(c: char): (d: nat)
    requires IsDigit(c)
    ensures d < 10
  {
    c as int - '0' as int
  }

  predicate AllDigits(s: string) {
    forall i :: 0 <= i < |s| ==> IsDigit(s[i])
  }

  /** The value of a run of decimal digits. */
  function DigitsValue(s: string): nat
    requires AllDigits(s)
  {
    if s == [] then 0 else DigitsValue(s[..|s| - 1]) * 10 + DigitValue(s[|s| - 1])
  }

  function Pow10(n: nat): (p: nat)
    ensures p >= 1
  {
    if n == 0 then 1 else 10 * Pow10(n - 1)
  }

  /** A run of `k` digits is worth less than 10^k. */
  lemma {:induction false} DigitsValueBound(s: string)
    requires AllDigits(s)
    ensures DigitsValue(s) < Pow10(|s|)
  {
    if s != [] {
      DigitsValueBound(s[..|s| - 1]);
    }
  }

  /** `str(n)` of a non-negative integer. */
  function NatToStr(n: nat): (r: string)
    ensures |r| >= 1 && AllDigits(r)
    ensures DigitsValue(r) == n
  {
    if n < 10 then [DigitChar(n)]
    else
      var r := NatToStr(n / 10) + [DigitChar(n % 10)];
      assert r[..|r| - 1] == NatToStr(n / 10);
      r
  }

  /** `str(n)` of an integer. */
  function IntToStr(n: int): string {
    if n < 0 then "-" + NatToStr(-n) else NatToStr(n)
  }

  /** Exactly two ASCII digits, as a fixed-width field holds them. */
  predicate Digits2(t: string) {
    |t| == 2 && IsDigit(t[0]) && IsDigit(t[1])
  }

  /** The value of a two-digit field. */
  function Digits2Value(t: string): (v: nat)
    requires Digits2(t)
    ensures v < 100
  {
    10 * DigitValue(t[0]) + DigitValue(t[1])
  }

  /** Exactly four ASCII digits. */
  predicate Digits4(t: string) {
    |t| == 4 && IsDigit(t[0]) && IsDigit(t[1]) && IsDigit(t[2]) && IsDigit(t[3])
  }

  /** The value of a four-digit field. */
  function Digits4Value(t: string): (v: nat)
    requires Digits4(t)
    ensures v < 10000
  {
    1000 * DigitValue(t[0]) + 100 * DigitValue(t[1]) + 10 * DigitValue(t[2]) + DigitValue(t[3])
  }

  /** A fixed-width field has the value of its digits read as a number. */
  lemma FixedWidthValues(t: string)
    ensures Digits2(t) ==> AllDigits(t) && DigitsValue(t) == Digits2Value(t)
    ensures Digits4(t) ==> AllDigits(t) && DigitsValue(t) == Digits4Value(t)
  {
    if |t| == 2 || |t| == 4 {
      var a, b := t[..1], t[..2];
      assert a[..0] == [] && b[..1] == a;
      if Digits2(t) {
        assert b == t;
        assert DigitsValue(a) == DigitValue(t[0]);
      }
      if Digits4(t) {
        var c := t[..3];
        assert c[..2] == b && t[..3] == c;
        assert DigitsValue(a) == DigitValue(t[0]);
        assert DigitsValue(b) == 10 * DigitValue(t[0]) + DigitValue(t[1]);
        assert DigitsValue(c) == 100 * DigitValue(t[0]) + 10 * DigitValue(t[1]) + DigitValue(t[2]);
      }
    }
  }

  /** `n` as exactly two digits, `%02d`. */
  function Pad2(n: nat): (r: string)
    requires n < 100
    ensures Digits2(r) && Digits2Value(r) == n
  {
    [DigitChar(n / 10), DigitChar(n % 10)]
  }

  /** `n` as exactly four digits, `%04d`. */
  function Pad4(n: nat): (r: string)
    requires n < 10000
    ensures Digits4(r) && Digits4Value(r) == n
  {
    var hi, lo := Pad2(n / 100), Pad2(n % 100);
    var r := hi + lo;
    assert r[0] == hi[0] && r[1] == hi[1] && r[2] == lo[0] && r[3] == lo[1];
    assert Digits4Value(r) == 100 * Digits2Value(hi) + Digits2Value(lo);
    r
  }

  /**
   * Python's `int(s)` on a string: optional surrounding whitespace, an
   * optional sign and one or more ASCII digits; anything else is a ValueError.
   */
  function ParseInt(s: string): (r: Option<int>)
    ensures r.Some? ==> |Strip(s)| > 0
  {
    var t := Strip(s);
    if |t| > 0 && (t[0] == '-' || t[0] == '+') then
      if |t| > 1 && AllDigits(t[1..]) then
        Some((if t[0] == '-' then -1 else 1) * DigitsValue(t[1..]))
      else None
    else if |t| > 0 && AllDigits(t) then Some(DigitsValue(t))
    else None
  }

  /** Reading back what `str` writes gives the same integer. */
  lemma ParseIntRoundTrip(n: int)
    ensures ParseInt(IntToStr(n)) == Some(n)
  {
    var s := IntToStr(n);
    assert NoSpace(s) by {
      if n < 0 {
        assert forall i :: 1 <= i < |s| ==> s[i] == NatToStr(-n)[i - 1];
      }
    }
    StripNoSpace(s);
    if n < 0 {
      assert s[1..] == NatToStr(-n);
    }
  }
}
