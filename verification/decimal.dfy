/** Decimal text for track and disc numbers: `str(n)` on import, `int(s)` on
    export. */
module Decimal {
  import opened Results
  import opened Sequences

  predicate IsDigit(c: char) {
    '0' <= c <= '9'
  }

  predicate AllDigits(s: string) {
    forall i :: 0 <= i < |s| ==> IsDigit(s[i])
  }

  /** The whitespace `int()` skips around a number (the ASCII part of it). */
  predicate IsSpace(c: char) {
    c == ' ' || c == '\t' || c == '\n' || c == '\r' || c == 0x0B as char || c == 0x0C as char
  }

  function DigitChar(d: int): (c: char)
    requires 0 <= d < 10
    ensures IsDigit(c)
  {
    ('0' as int + d) as char
  }

  /** The value of a string of decimal digits, most significant first. */
  function DigitsValue(s: string): nat
    requires AllDigits(s)
  {
    if |s| == 0 then 0 else DigitsValue(s[..|s| - 1]) * 10 + (s[|s| - 1] as int - '0' as int)
  }

  /** The shortest decimal digits of a natural number: non-empty, and without a
      leading zero unless the number is zero. */
  function NatToDigits(n: nat): (s: string)
    ensures |s| > 0 && AllDigits(s)
    ensures s[0] == '0' ==> n == 0 && s == "0"
  {
    if n < 10 then [DigitChar(n)] else NatToDigits(n / 10) + [DigitChar(n % 10)]
  }

  /** `str(n)` of a Python integer: its digits, after a minus sign when negative. */
  function IntToString(n: int): (s: string)
    ensures |s| > 0 && !IsSpace(s[0]) && !IsSpace(s[|s| - 1])
    ensures n >= 0 <==> AllDigits(s)
  {
    if n < 0 then "-" + NatToDigits(-n) else NatToDigits(n)
  }

  /** Drops the whitespace around a string, as `int()` does before reading it. */
  function StripSpace(s: string): (r: string)
    ensures |r| <= |s|
    ensures |r| > 0 ==> !IsSpace(r[0]) && !IsSpace(r[|r| - 1])
    decreases |s|
  {
    if |s| > 0 && IsSpace(s[0]) then StripSpace(s[1..])
    else if |s| > 0 && IsSpace(s[|s| - 1]) then StripSpace(s[..|s| - 1])
    else s
  }

  /** `int(s)` in base 10: optional surrounding whitespace, an optional sign,
      optional whitespace after the sign, and one or more digits; anything
      else raises, modelled as `None`. A string without a single digit in it
      is never a number. */
  function ParseInt(s: string): (r: Option<int>)
    ensures r.Some? ==> exists i :: 0 <= i < |s| && IsDigit(s[i])
  {
    var t := StripSpace(s);
    var signed := |t| > 0 && (t[0] == '-' || t[0] == '+');
    var negative := |t| > 0 && t[0] == '-';
    var digits := if signed then StripSpace(t[1..]) else t;
    if |digits| > 0 && AllDigits(digits) then
      assert digits[0] in t by {
        if signed {
          StripSpaceKeepsDigit(t[1..], digits[0]);
        }
      }
      StripSpaceKeepsDigit(s, digits[0]);
      var magnitude: int := DigitsValue(digits);
      Some(if negative then -magnitude else magnitude)
    else
      None
  }

  predicate AllSpace(s: string) {
    forall i :: 0 <= i < |s| ==> IsSpace(s[i])
  }

  /** `s` splits as the text `int()` accepts in base 10: whitespace `p`, a
      sign `sg` (possibly none), whitespace `q` after the sign, the digits `d`
      and trailing whitespace `u`. */
  predicate SplitsAsLiteral(s: string, p: string, sg: string, q: string, d: string, u: string) {
    && s == p + sg + q + d + u
    && AllSpace(p) && (sg == "" || sg == "+" || sg == "-") && (sg == "" ==> q == "")
    && AllSpace(q) && |d| > 0 && AllDigits(d) && AllSpace(u)
  }

  /** Text that Python 2's `int()` reads as a base-10 integer. */
  ghost predicate IntLiteral(s: string) {
    exists p, sg, q, d, u :: SplitsAsLiteral(s, p, sg, q, d, u)
  }

  /** The integer a literal denotes: its digits' value, negated after a minus. */
  function LiteralValue(sg: string, d: string): int
    requires AllDigits(d)
  {
    if sg == "-" then -(DigitsValue(d) as int) else DigitsValue(d)
  }

  lemma AllSpaceAppend(x: string, y: string)
    requires AllSpace(x) && AllSpace(y)
    ensures AllSpace(x + y)
  {
    assert forall i :: 0 <= i < |x + y| ==> (x + y)[i] == if i < |x| then x[i] else y[i - |x|];
  }

  /** Stripping removes whitespace only: the input is the result with runs
      of whitespace before and after it. */
  lemma {:induction false} StripSpaceSplits(s: string) returns (a: string, b: string)
    ensures s == a + StripSpace(s) + b && AllSpace(a) && AllSpace(b)
    decreases |s|
  {
    if |s| > 0 && IsSpace(s[0]) {
      var a', b' := StripSpaceSplits(s[1..]);
      a, b := [s[0]] + a', b';
      assert s == [s[0]] + s[1..];
      Regroup([s[0]], a' + StripSpace(s), b');
      Regroup([s[0]], a', StripSpace(s));
      AllSpaceAppend([s[0]], a');
    } else if |s| > 0 && IsSpace(s[|s| - 1]) {
      var a', b' := StripSpaceSplits(s[..|s| - 1]);
      a, b := a', b' + [s[|s| - 1]];
      assert s == s[..|s| - 1] + [s[|s| - 1]];
      Regroup(a' + StripSpace(s), b', [s[|s| - 1]]);
      AllSpaceAppend(b', [s[|s| - 1]]);
    } else {
      a, b := "", "";
    }
  }

  /** Whitespace alone strips to nothing. */
  lemma {:induction false} StripSpaceOfSpace(x: string)
    requires AllSpace(x)
    ensures StripSpace(x) == ""
    decreases |x|
  {
    if |x| > 0 {
      assert IsSpace(x[0]);
      StripSpaceOfSpace(x[1..]);
    }
  }

  /** Leading whitespace before text that starts with something else is
      stripped. */
  lemma {:induction false} StripSpaceOfLeading(a: string, x: string)
    requires AllSpace(a) && |x| > 0 && !IsSpace(x[0])
    ensures StripSpace(a + x) == StripSpace(x)
    decreases |a|
  {
    if |a| > 0 {
      assert IsSpace((a + x)[0]) by { assert (a + x)[0] == a[0]; }
      assert (a + x)[1..] == a[1..] + x;
      StripSpaceOfLeading(a[1..], x);
    } else {
      assert a + x == x;
    }
  }

  /** Trailing whitespace after text whose ends are not whitespace is
      stripped. */
  lemma {:induction false} StripSpaceOfTrailing(m: string, b: string)
    requires AllSpace(b) && |m| > 0 && !IsSpace(m[0]) && !IsSpace(m[|m| - 1])
    ensures StripSpace(m + b) == m
    decreases |b|
  {
    var s := m + b;
    if |b| > 0 {
      assert !IsSpace(s[0]) by { assert s[0] == m[0]; }
      assert IsSpace(s[|s| - 1]) by { assert s[|s| - 1] == b[|b| - 1]; }
      assert s[..|s| - 1] == m + b[..|b| - 1];
      StripSpaceOfTrailing(m, b[..|b| - 1]);
    } else {
      assert s == m;
    }
  }

  /** Whitespace around text whose ends are not whitespace is stripped exactly. */
  lemma StripSpaceOfPadded(a: string, m: string, b: string)
    requires AllSpace(a) && AllSpace(b)
    requires |m| > 0 ==> !IsSpace(m[0]) && !IsSpace(m[|m| - 1])
    ensures StripSpace(a + m + b) == m
  {
    if |m| == 0 {
      assert a + m + b == a + b;
      AllSpaceAppend(a, b);
      StripSpaceOfSpace(a + b);
    } else {
      assert a + m + b == a + (m + b);
      assert (m + b)[0] == m[0];
      StripSpaceOfLeading(a, m + b);
      StripSpaceOfTrailing(m, b);
    }
  }

  /** `int()` of text that strips to digits alone. */
  lemma ParseIntUnsigned(s: string)
    requires |StripSpace(s)| > 0 && AllDigits(StripSpace(s))
    ensures ParseInt(s) == Some(DigitsValue(StripSpace(s)) as int)
  {
    assert IsDigit(StripSpace(s)[0]);
  }

  /** `int()` of text that strips to a sign `t[0]` followed by, once
      stripped again, digits `d` alone. */
  lemma ParseIntSigned(s: string, t: string, d: string)
    requires t == StripSpace(s) && |t| > 0 && (t[0] == '-' || t[0] == '+')
    requires d == StripSpace(t[1..]) && |d| > 0 && AllDigits(d)
    ensures ParseInt(s) == Some(if t[0] == '-' then -(DigitsValue(d) as int) else DigitsValue(d))
  {
  }

  /** The two ways a literal's pieces group: around the signed part, and
      within it. */
  lemma LiteralPieces(s: string, p: string, sg: string, q: string, d: string, u: string)
    requires s == p + sg + q + d + u && |sg| == 1
    ensures s == p + (sg + q + d) + u
    ensures (sg + q + d)[0] == sg[0] && (sg + q + d)[1..] == q + d + ""
  {
  }

  /** An unsigned literal reads as its digits' value. */
  lemma ParseIntOfUnsigned(s: string, p: string, d: string, u: string)
    requires s == p + d + u && AllSpace(p) && AllSpace(u)
    requires |d| > 0 && AllDigits(d)
    ensures ParseInt(s) == Some(DigitsValue(d) as int)
  {
    assert !IsSpace(d[0]) && !IsSpace(d[|d| - 1]);
    StripSpaceOfPadded(p, d, u);
    ParseIntUnsigned(s);
  }

  /** A signed literal reads as its digits' value, negated after a minus. */
  lemma ParseIntOfSigned(s: string, p: string, sg: string, q: string, d: string, u: string)
    requires s == p + sg + q + d + u && AllSpace(p) && AllSpace(q) && AllSpace(u)
    requires (sg == "+" || sg == "-") && |d| > 0 && AllDigits(d)
    ensures ParseInt(s) == Some(if sg == "-" then -(DigitsValue(d) as int) else DigitsValue(d))
  {
    LiteralPieces(s, p, sg, q, d, u);
    var t := sg + q + d;
    assert !IsSpace(d[0]) && !IsSpace(d[|d| - 1]);
    assert !IsSpace(t[0]) && !IsSpace(t[|t| - 1]) by { assert t[|t| - 1] == d[|d| - 1]; }
    StripSpaceOfPadded(p, t, u);
    StripSpaceOfPadded(q, d, "");
    assert t[0] == sg[0] && (sg == "-" <==> sg[0] == '-');
    ParseIntSigned(s, t, d);
  }

  /** Every literal reads as the integer it denotes, whatever whitespace
      surrounds it or separates its sign from its digits. */
  lemma ParseIntOfLiteral(s: string, p: string, sg: string, q: string, d: string, u: string)
    requires SplitsAsLiteral(s, p, sg, q, d, u)
    ensures ParseInt(s) == Some(LiteralValue(sg, d))
  {
    if sg == "" {
      assert s == p + d + u;
      ParseIntOfUnsigned(s, p, d, u);
    } else {
      ParseIntOfSigned(s, p, sg, q, d, u);
    }
  }

  /** Whatever `int()` accepts splits as a literal. */
  lemma ParseIntOnlyLiterals(s: string)
    requires ParseInt(s).Some?
    ensures IntLiteral(s)
  {
    var t := StripSpace(s);
    var a, b := StripSpaceSplits(s);
    if |t| > 0 && (t[0] == '-' || t[0] == '+') {
      var q, r := StripSpaceSplits(t[1..]);
      var d := StripSpace(t[1..]);
      AllSpaceAppend(r, b);
      SignedPieces(s, a, t, q, d, r, b);
      assert SplitsAsLiteral(s, a, [t[0]], q, d, r + b);
    } else {
      assert s == a + "" + "" + t + b;
      assert SplitsAsLiteral(s, a, "", "", t, b);
    }
  }

  lemma SignedPieces(s: string, a: string, t: string, q: string, d: string, r: string, b: string)
    requires s == a + t + b && |t| > 0 && t[1..] == q + d + r
    ensures s == a + [t[0]] + q + d + (r + b)
  {
    assert t == [t[0]] + t[1..];
  }

  /** `int()` accepts exactly the literals: it does not read a number off the
      front of "3rd" or "1 2". */
  lemma ParseIntAcceptsLiterals(s: string)
    ensures ParseInt(s).Some? <==> IntLiteral(s)
  {
    if IntLiteral(s) {
      var p, sg, q, d, u :| SplitsAsLiteral(s, p, sg, q, d, u);
      ParseIntOfLiteral(s, p, sg, q, d, u);
    }
    if ParseInt(s).Some? {
      ParseIntOnlyLiterals(s);
    }
  }

  /** Text after the digits is not part of a number: `int("3rd")` raises. */
  lemma ParseIntRejectsTrailingText()
    ensures ParseInt("3rd") == None
  {
  }

  /** Whitespace between digits is not skipped: `int("1 2")` raises. */
  lemma ParseIntRejectsInnerSpace()
    ensures ParseInt("1 2") == None
  {
  }

  /** A character of the stripped string is a character of the original. */
  lemma {:induction false} StripSpaceKeepsDigit(s: string, c: char)
    requires c in StripSpace(s)
    ensures c in s
    decreases |s|
  {
    if |s| > 0 && IsSpace(s[0]) {
      StripSpaceKeepsDigit(s[1..], c);
    } else if |s| > 0 && IsSpace(s[|s| - 1]) {
      StripSpaceKeepsDigit(s[..|s| - 1], c);
    }
  }

  /** Reading back the digits of a natural number gives the number. */
  lemma {:induction false} DigitsRoundTrip(n: nat)
    ensures DigitsValue(NatToDigits(n)) == n
  {
    var s := NatToDigits(n);
    if n >= 10 {
      DigitsRoundTrip(n / 10);
      assert s[..|s| - 1] == NatToDigits(n / 10);
    }
  }

  /** `int(str(n)) == n` for every integer, negative ones included. */
  lemma ParseIntOfIntToString(n: int)
    ensures ParseInt(IntToString(n)) == Some(n)
  {
    var s := IntToString(n);
    assert StripSpace(s) == s;
    if n < 0 {
      DigitsRoundTrip(-n);
      assert s[1..] == NatToDigits(-n);
      assert StripSpace(s[1..]) == s[1..];
    } else {
      DigitsRoundTrip(n);
    }
  }

  /** A plain run of digits reads as its decimal value. */
  lemma ParseIntOfDigits(s: string)
    requires |s| > 0 && AllDigits(s)
    ensures ParseInt(s) == Some(DigitsValue(s))
  {
    assert IsDigit(s[0]) && IsDigit(s[|s| - 1]);
    assert StripSpace(s) == s;
  }

  /** A sign may be separated from its digits by whitespace. */
  lemma ParseIntSpaceAfterSign()
    ensures ParseInt("- 3") == Some(-3)
  {
  }
}
