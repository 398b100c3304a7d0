/** Byte strings as the container library hands them over, and the NUL
    stripping applied to free-form values on import. */
module ByteStrings {

  type byte = b: int | 0 <= b < 256

  type Bytes = seq<byte>

  /** `n` NUL bytes: the padding some writers leave around free-form values. */
  function Nuls(n: nat): (r: Bytes)
    ensures |r| == n
    ensures forall i :: 0 <= i < n ==> r[i] == 0
  {
    seq(n, _ => 0)
  }

  /** No NUL byte at either end (vacuously true of the empty string). */
  predicate NulFreeEnds(b: Bytes) {
    |b| == 0 || (b[0] != 0 && b[|b| - 1] != 0)
  }

  /** The first position at or after `i` that holds a non-NUL byte, or `|b|`. */
  function FirstNonNul(b: Bytes, i: nat): (j: nat)
    requires i <= |b|
    ensures i <= j <= |b|
    ensures forall k :: i <= k < j ==> b[k] == 0
    ensures j < |b| ==> b[j] != 0
    decreases |b| - i
  {
    if i < |b| && b[i] == 0 then FirstNonNul(b, i + 1) else i
  }

  /** The end of the last non-NUL byte at or before position `j`, or 0. */
  function EndOfNonNul(b: Bytes, j: nat): (e: nat)
    requires j <= |b|
    ensures e <= j
    ensures forall k :: e <= k < j ==> b[k] == 0
    ensures e > 0 ==> b[e - 1] != 0
  {
    if j > 0 && b[j - 1] == 0 then EndOfNonNul(b, j - 1) else j
  }

  /** `value.strip("\x00")`: removes the NUL bytes at both ends of a byte
      string. The result neither starts nor ends with a NUL, and only NULs were
      cut off. */
  function StripNul(b: Bytes): (r: Bytes)
    ensures NulFreeEnds(r)
    ensures |r| <= |b|
  {
    var i := FirstNonNul(b, 0);
    var e := EndOfNonNul(b, |b|);
    if e <= i then [] else b[i..e]
  }

  /** Stripping removes only padding: every byte string is its stripped value
      with a run of NULs before and after it. */
  lemma StripNulSplits(b: Bytes) returns (p: nat, q: nat)
    ensures b == Nuls(p) + StripNul(b) + Nuls(q)
  {
    var i := FirstNonNul(b, 0);
    var e := EndOfNonNul(b, |b|);
    if e <= i {
      assert i == |b| || e == 0;
      p, q := |b|, 0;
      assert b == Nuls(p) + [] + Nuls(q);
    } else {
      p, q := i, |b| - e;
      assert b[..i] == Nuls(p);
      assert b[e..] == Nuls(q);
      assert b == b[..i] + b[i..e] + b[e..];
    }
  }

  /** Stripping a value that already has NUL-free ends changes nothing. */
  lemma StripNulOfClean(b: Bytes)
    requires NulFreeEnds(b)
    ensures StripNul(b) == b
  {
    if |b| > 0 {
      assert FirstNonNul(b, 0) == 0;
      assert EndOfNonNul(b, |b|) == |b|;
    }
  }

  /** Stripping removes exactly the padding: whatever NULs surround a value with
      NUL-free ends, stripping gives the value back. */
  lemma StripNulOfPadded(p: nat, v: Bytes, q: nat)
    requires NulFreeEnds(v)
    ensures StripNul(Nuls(p) + v + Nuls(q)) == v
  {
    var b := Nuls(p) + v + Nuls(q);
    if |v| == 0 {
      assert forall k :: 0 <= k < |b| ==> b[k] == 0;
      assert FirstNonNul(b, 0) == |b|;
    } else {
      assert b[p] != 0 && b[p + |v| - 1] != 0;
      assert FirstNonNul(b, 0) == p;
      assert EndOfNonNul(b, |b|) == p + |v|;
      assert b[p..p + |v|] == v;
    }
  }

  /** Stripping twice is stripping once. */
  lemma StripNulIdempotent(b: Bytes)
    ensures StripNul(StripNul(b)) == StripNul(b)
  {
    StripNulOfClean(StripNul(b));
  }
}
