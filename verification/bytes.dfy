/**
 Unsigned little-endian integers as the sensor reader assembles them from raw
 bytes. Python's `|` and `<<` on non-negative integers are written out here
 (`Or`, `Shl`) so that the reader's decoding loop can be modelled as written
 and then related to the plain positional value `LeValue`.
 */
module Bytes {

  /** One byte as Python's `bytes` indexing yields it: an int in 0..255. */
  type byte = x: int | 0 <= x < 256

  /** 2^n */
  function Pow2(n: nat): (r: nat)
    ensures r >= 1
  {
    if n == 0 then 1 else 2 * Pow2(n - 1)
  }

  lemma {:induction false} Pow2Add(a: nat, b: nat)
    ensures Pow2(a + b) == Pow2(a) * Pow2(b)
    decreases a
  {
    if a > 0 {
      Pow2Add(a - 1, b);
      assert Pow2(a + b) == 2 * Pow2(a - 1 + b);
    }
  }

  /** One more byte multiplies the range by 256. */
  lemma Pow2Byte(n: nat)
    ensures Pow2(8 * n + 8) == 256 * Pow2(8 * n)
  {
    Pow2Add(8, 8 * n);
    assert Pow2(8) == 256;
  }

  /** Python's `x << n` for a non-negative `x`. */
  function Shl(x: nat, n: nat): nat
  {
    x * Pow2(n)
  }

  /** Python's `a | b` for non-negative `a` and `b`, taken one bit at a time
      from the least significant end. */
  function Or(a: nat, b: nat): nat
    decreases a + b
  {
    if a == 0 then b
    else if b == 0 then a
    else 2 * Or(a / 2, b / 2) + (if a % 2 == 1 || b % 2 == 1 then 1 else 0)
  }

  /** When `a` fits below bit `n`, or-ing in `b << n` touches no bit of `a`,
      so the `|` of the reader's loop is an addition. */
  lemma {:induction false} OrOfDisjoint(a: nat, b: nat, n: nat)
    requires a < Pow2(n)
    ensures Or(a, Shl(b, n)) == a + Shl(b, n)
    decreases n
  {
    if a != 0 && b != 0 {
      assert n > 0;
      var h := Shl(b, n - 1);
      var x := Shl(b, n);
      ShlStep(b, n);
      assert a / 2 < Pow2(n - 1);
      OrOfDisjoint(a / 2, b, n - 1);
      assert x / 2 == h && x % 2 == 0;
      assert Or(a, x) == 2 * Or(a / 2, h) + a % 2;
    }
  }

  /** Shifting by one more position doubles, and a non-zero value stays non-zero. */
  lemma ShlStep(b: nat, n: nat)
    requires n > 0
    ensures Shl(b, n) == 2 * Shl(b, n - 1)
    ensures b != 0 ==> Shl(b, n - 1) >= 1
  {
    var p := Pow2(n - 1);
    assert Pow2(n) == 2 * p;
    assert b * (2 * p) == 2 * (b * p);
    if b != 0 {
      assert b * p >= p;
    }
  }

  /** The positional value of `s` read least-significant byte first:
      the sum of s[i] * 256^i over all i. */
  function LeValue(s: seq<byte>): nat
  {
    if |s| == 0 then 0 else s[0] + 256 * LeValue(s[1..])
  }

  /** The `k` low-order bytes of `n`, least significant first. */
  function LeEncode(n: nat, k: nat): (r: seq<byte>)
    ensures |r| == k
  {
    if k == 0 then [] else [n % 256] + LeEncode(n / 256, k - 1)
  }

  /** `k` bytes hold exactly the values below 256^k. */
  lemma {:induction false} LeValueBound(s: seq<byte>)
    ensures LeValue(s) < Pow2(8 * |s|)
  {
    if |s| > 0 {
      LeValueBound(s[1..]);
      Pow2Byte(|s| - 1);
    }
  }

  /** Appending a byte adds it at the next higher position. */
  lemma {:induction false} LeValueAppend(s: seq<byte>, x: byte)
    ensures LeValue(s + [x]) == LeValue(s) + x * Pow2(8 * |s|)
  {
    if |s| == 0 {
      assert (s + [x])[1..] == [];
    } else {
      assert (s + [x])[1..] == s[1..] + [x];
      LeValueAppend(s[1..], x);
      Pow2Byte(|s| - 1);
      assert 256 * (x * Pow2(8 * (|s| - 1))) == x * (256 * Pow2(8 * (|s| - 1)));
    }
  }

  /** Decoding the encoding of a value that fits gives the value back. */
  lemma {:induction false} LeValueOfEncode(n: nat, k: nat)
    requires n < Pow2(8 * k)
    ensures LeValue(LeEncode(n, k)) == n
  {
    if k > 0 {
      Pow2Byte(k - 1);
      LeValueOfEncode(n / 256, k - 1);
      assert LeEncode(n, k)[1..] == LeEncode(n / 256, k - 1);
    }
  }

  /** Encoding the value of a byte string at its own width gives the bytes back. */
  lemma {:induction false} LeEncodeOfValue(s: seq<byte>)
    ensures LeEncode(LeValue(s), |s|) == s
  {
    if |s| > 0 {
      LeEncodeOfValue(s[1..]);
      assert LeValue(s) % 256 == s[0];
      assert LeValue(s) / 256 == LeValue(s[1..]);
    }
  }

  /** The accumulator of the reader's loop
        acc = 0
        for i in range(n): acc |= s[off + i] << 8 * i
      after its `n`-th iteration. */
  function OrFold(s: seq<byte>, off: nat, n: nat): nat
    requires off + n <= |s|
  {
    if n == 0 then 0 else Or(OrFold(s, off, n - 1), Shl(s[off + n - 1], 8 * (n - 1)))
  }

  /** The or-and-shift loop computes the little-endian value of the bytes it visits. */
  lemma {:induction false} OrFoldIsLeValue(s: seq<byte>, off: nat, n: nat)
    requires off + n <= |s|
    ensures OrFold(s, off, n) == LeValue(s[off..off + n])
    ensures OrFold(s, off, n) < Pow2(8 * n)
  {
    if n > 0 {
      OrFoldIsLeValue(s, off, n - 1);
      var prefix := s[off..off + n - 1];
      OrOfDisjoint(OrFold(s, off, n - 1), s[off + n - 1], 8 * (n - 1));
      assert s[off..off + n] == prefix + [s[off + n - 1]];
      LeValueAppend(prefix, s[off + n - 1]);
      LeValueBound(s[off..off + n]);
    }
  }
}
