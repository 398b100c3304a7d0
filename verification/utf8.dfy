/** UTF-8 encoding of text, as `value.encode("utf-8")` produces it when
    free-form values are written back. The import side receives its decoder
    as a parameter; `Decode` is one decoder that meets what the round trips
    ask of it. */
module Utf8 {
  import opened ByteStrings
  import opened Sequences

  /** Decoding with replacement of malformed input: `decode("utf-8", "replace")`. */
  type Decoder = Bytes -> string

  /** The one-to-four byte UTF-8 form of one Unicode scalar value. */
  function EncodeChar(c: char): (r: Bytes)
    ensures 1 <= |r| <= 4
    ensures c == 0 as char <==> r == [0]
    ensures c != 0 as char ==> forall i :: 0 <= i < |r| ==> r[i] != 0
  {
    var n := c as int;
    if n < 0x80 then
      [n]
    else if n < 0x800 then
      [0xC0 + n / 0x40, 0x80 + n % 0x40]
    else if n < 0x1_0000 then
      [0xE0 + n / 0x1000, 0x80 + (n / 0x40) % 0x40, 0x80 + n % 0x40]
    else
      [0xF0 + n / 0x4_0000, 0x80 + (n / 0x1000) % 0x40, 0x80 + (n / 0x40) % 0x40, 0x80 + n % 0x40]
  }

  /** The UTF-8 encoding of a string: the characters' encodings, in order. */
  function Encode(s: string): (r: Bytes)
    ensures |s| <= |r| <= 4 * |s|
  {
    if |s| == 0 then [] else EncodeChar(s[0]) + Encode(s[1..])
  }

  /** `[v.encode("utf-8") for v in values]`. */
  function EncodeAll(values: seq<string>): (r: seq<Bytes>)
    ensures |r| == |values|
    ensures forall i :: 0 <= i < |values| ==> r[i] == Encode(values[i])
  {
    seq(|values|, i requires 0 <= i < |values| => Encode(values[i]))
  }

  /** A decoder that gives back every string it is handed the UTF-8 encoding
      of, as decoding with replacement does. */
  ghost predicate InvertsEncode(decode: Decoder) {
    forall s :: decode(Encode(s)) == s
  }

  /** A string with no NUL character at either end. */
  predicate NulFreeText(s: string) {
    |s| == 0 || (s[0] != 0 as char && s[|s| - 1] != 0 as char)
  }

  /** Encoding a string without NUL characters at its ends gives bytes without
      NUL bytes at their ends: only U+0000 encodes to a zero byte. */
  lemma {:induction false} EncodeKeepsNulFreeEnds(s: string)
    requires NulFreeText(s)
    ensures NulFreeEnds(Encode(s))
  {
    if |s| > 0 {
      EncodeLast(s);
    }
  }

  /** The last bytes of an encoding are the encoding of the last character. */
  lemma {:induction false} EncodeLast(s: string)
    requires |s| > 0
    ensures Encode(s) == Encode(s[..|s| - 1]) + EncodeChar(s[|s| - 1])
  {
    var n := |s|;
    var init := s[..n - 1];
    if n == 1 {
      assert init == [] && s[1..] == [];
      assert Encode(s) == EncodeChar(s[0]) + Encode(s[1..]);
    } else {
      var head, mid, last := EncodeChar(s[0]), Encode(init[1..]), EncodeChar(s[n - 1]);
      assert Encode(s[1..]) == mid + last by {
        EncodeLast(s[1..]);
        assert s[1..][..n - 2] == init[1..];
        assert s[1..][n - 2] == s[n - 1];
      }
      assert Encode(init) == head + mid by {
        assert init[0] == s[0];
      }
      assert Encode(s) == head + Encode(s[1..]);
      Regroup(head, mid, last);
    }
  }

  /** U+FFFD, which decoding with replacement gives for a malformed byte. */
  const Replacement: char := 0xFFFD as char

  predicate IsContinuation(x: byte) {
    0x80 <= x < 0xC0
  }

  /** The character at the front of `b` and how many bytes it takes: the
      scalar value of a well-formed one-to-four byte sequence, or U+FFFD for a
      single byte that starts none. */
  function DecodeFirst(b: Bytes): (r: (char, nat))
    requires |b| > 0
    ensures 1 <= r.1 <= |b|
  {
    var b0: int := b[0];
    if b0 < 0x80 then
      (b0 as char, 1)
    else if 0xC2 <= b0 < 0xE0 && |b| >= 2 && IsContinuation(b[1]) then
      var n := (b0 - 0xC0) * 0x40 + (b[1] as int - 0x80);
      (n as char, 2)
    else if 0xE0 <= b0 < 0xF0 && |b| >= 3 && IsContinuation(b[1]) && IsContinuation(b[2]) then
      var n := (b0 - 0xE0) * 0x1000 + (b[1] as int - 0x80) * 0x40 + (b[2] as int - 0x80);
      if 0x800 <= n && !(0xD800 <= n < 0xE000) then (n as char, 3) else (Replacement, 1)
    else if 0xF0 <= b0 < 0xF5 && |b| >= 4 && IsContinuation(b[1]) && IsContinuation(b[2]) && IsContinuation(b[3]) then
      var n := (b0 - 0xF0) * 0x4_0000 + (b[1] as int - 0x80) * 0x1000 + (b[2] as int - 0x80) * 0x40 + (b[3] as int - 0x80);
      if 0x1_0000 <= n < 0x11_0000 then (n as char, 4) else (Replacement, 1)
    else
      (Replacement, 1)
  }

  /** A UTF-8 decoder with replacement: one character per well-formed
      sequence, U+FFFD per byte that starts none. */
  function Decode(b: Bytes): string
    decreases |b|
  {
    if |b| == 0 then "" else
      var (c, k) := DecodeFirst(b);
      [c] + Decode(b[k..])
  }

  lemma DecodeFirstOfTwo(c: char, rest: Bytes)
    requires 0x80 <= c as int < 0x800
    ensures DecodeFirst(EncodeChar(c) + rest) == (c, 2)
  {
    var n := c as int;
    var e := EncodeChar(c);
    assert (e + rest)[0] == e[0] == 0xC0 + n / 0x40;
    assert (e + rest)[1] == e[1] == 0x80 + n % 0x40;
    assert n == (n / 0x40) * 0x40 + n % 0x40;
  }

  lemma DecodeFirstOfThree(c: char, rest: Bytes)
    requires 0x800 <= c as int < 0x1_0000
    ensures DecodeFirst(EncodeChar(c) + rest) == (c, 3)
  {
    var n := c as int;
    var e := EncodeChar(c);
    var h := n / 0x40;
    assert (e + rest)[0] == e[0] == 0xE0 + n / 0x1000;
    assert (e + rest)[1] == e[1] == 0x80 + h % 0x40;
    assert (e + rest)[2] == e[2] == 0x80 + n % 0x40;
    assert n == h * 0x40 + n % 0x40;
    assert h == (n / 0x1000) * 0x40 + h % 0x40;
  }

  lemma DecodeFirstOfFour(c: char, rest: Bytes)
    requires 0x1_0000 <= c as int
    ensures DecodeFirst(EncodeChar(c) + rest) == (c, 4)
  {
    var n := c as int;
    var e := EncodeChar(c);
    var h := n / 0x40;
    var g := n / 0x1000;
    assert (e + rest)[0] == e[0] == 0xF0 + n / 0x4_0000;
    assert (e + rest)[1] == e[1] == 0x80 + g % 0x40;
    assert (e + rest)[2] == e[2] == 0x80 + h % 0x40;
    assert (e + rest)[3] == e[3] == 0x80 + n % 0x40;
    assert n == h * 0x40 + n % 0x40;
    assert h == g * 0x40 + h % 0x40;
    assert g == (n / 0x4_0000) * 0x40 + g % 0x40;
  }

  /** Decoding reads back the first character of an encoding, whatever
      follows it. */
  lemma DecodeFirstOfEncode(c: char, rest: Bytes)
    ensures DecodeFirst(EncodeChar(c) + rest) == (c, |EncodeChar(c)|)
  {
    if c as int < 0x80 {
      assert (EncodeChar(c) + rest)[0] == c as int;
    } else if c as int < 0x800 {
      DecodeFirstOfTwo(c, rest);
    } else if c as int < 0x1_0000 {
      DecodeFirstOfThree(c, rest);
    } else {
      DecodeFirstOfFour(c, rest);
    }
  }

  /** Decoding inverts encoding. */
  lemma {:induction false} DecodeOfEncode(s: string)
    ensures Decode(Encode(s)) == s
  {
    if |s| > 0 {
      var e := EncodeChar(s[0]);
      DecodeFirstOfEncode(s[0], Encode(s[1..]));
      assert (e + Encode(s[1..]))[|e|..] == Encode(s[1..]);
      DecodeOfEncode(s[1..]);
      assert s == [s[0]] + s[1..];
    }
  }

  /** A decoder meeting `InvertsEncode` exists, so the round trips that
      assume one are not vacuous. */
  lemma DecodeInvertsEncode()
    ensures InvertsEncode(Decode)
  {
    forall s
      ensures Decode(Encode(s)) == s
    {
      DecodeOfEncode(s);
    }
  }

  /** Different texts encode to different bytes. */
  lemma EncodeInjective(s: string, s': string)
    requires Encode(s) == Encode(s')
    ensures s == s'
  {
    DecodeOfEncode(s);
    DecodeOfEncode(s');
  }

  /** The encoding of "café" written by hand: one byte per ASCII letter and the
      two-byte form of U+00E9. */
  lemma EncodeCafe()
    ensures Encode("café") == [0x63, 0x61, 0x66, 0xC3, 0xA9]
  {
  }
}
