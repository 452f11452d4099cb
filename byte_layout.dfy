/**
 * Reference definitions of the two byte orders the codec uses.
 *
 * A value is laid out in `w` bytes either least-significant-byte-first
 * (LSBF: byte k of the value at position k) or most-significant-byte-first
 * (MSBF: byte k of the value at position w - 1 - k).  Reading a layout back
 * is a weighted sum of its bytes.  The primitives in DataOperations are
 * specified against these functions.
 */
module ByteLayout {

  /** The C types `uint8_t`, `uint16_t` and `uint32_t`, as ranges of integers. */
  type Byte = b: int | 0 <= b < 0x100
  type U16 = x: int | 0 <= x < 0x1_0000
  type U32 = x: int | 0 <= x < 0x1_0000_0000

  /** 256^k, the weight of byte k (a left shift by 8k). */
  function Pow256(k: nat): (p: nat)
    ensures p >= 1
  {
    if k == 0 then 1 else 0x100 * Pow256(k - 1)
  }

  /** Byte k of d counted from the least significant end: `(d >> 8k) & 0xFF`. */
  function ByteOf(d: nat, k: nat): Byte
  {
    (d / Pow256(k)) % 0x100
  }

  /** The w-byte LSBF layout of d: low byte first, then the layout of d >> 8. */
  function LsbfBytes(d: nat, w: nat): (s: seq<Byte>)
    ensures |s| == w
  {
    if w == 0 then [] else [d % 0x100] + LsbfBytes(d / 0x100, w - 1)
  }

  /** The w-byte MSBF layout of d: the layout of d >> 8, then the low byte last. */
  function MsbfBytes(d: nat, w: nat): (s: seq<Byte>)
    ensures |s| == w
  {
    if w == 0 then [] else MsbfBytes(d / 0x100, w - 1) + [d % 0x100]
  }

  /** The value an LSBF layout denotes: the sum of s[k] * 256^k. */
  function LsbfValue(s: seq<Byte>): nat
  {
    if s == [] then 0 else s[0] + 0x100 * LsbfValue(s[1..])
  }

  /** The value an MSBF layout denotes: the sum of s[k] * 256^(|s| - 1 - k). */
  function MsbfValue(s: seq<Byte>): nat
  {
    if s == [] then 0 else 0x100 * MsbfValue(s[..|s| - 1]) + s[|s| - 1]
  }

  /** The bytes of s in the opposite order. */
  function Reverse(s: seq<Byte>): (r: seq<Byte>)
    ensures |r| == |s|
  {
    if s == [] then [] else [s[|s| - 1]] + Reverse(s[..|s| - 1])
  }

  lemma {:induction false} ReverseAt(s: seq<Byte>, k: nat)
    requires k < |s|
    ensures Reverse(s)[k] == s[|s| - 1 - k]
  {
    if k > 0 {
      ReverseAt(s[..|s| - 1], k - 1);
    }
  }

  /** Integer division is determined by quotient and remainder. */
  lemma DivUnique(a: nat, b: nat, q: nat, r: nat)
    requires b >= 1 && r < b && a == b * q + r
    ensures a / b == q
  {
    var q', r' := a / b, a % b;
    assert b * q' + r' == b * q + r;
    if q' < q {
      assert b * q - b * q' == b * (q - q');
      MulAtLeast(b, q - q');
    } else if q' > q {
      assert b * q' - b * q == b * (q' - q);
      MulAtLeast(b, q' - q);
    }
  }

  lemma MulAtLeast(b: nat, x: nat)
    requires x >= 1
    ensures b * x >= b
  {
  }

  /** Shifting right by 8 and then by 8k is shifting right by 8(k + 1). */
  lemma DivDiv(a: nat, p: nat)
    requires p >= 1
    ensures a / 0x100 / p == a / (0x100 * p)
  {
    var q, r := a / (0x100 * p), a % (0x100 * p);
    var r1, r0 := r / 0x100, r % 0x100;
    assert a == 0x100 * (p * q + r1) + r0 by {
      assert a == (0x100 * p) * q + r;
      assert (0x100 * p) * q == 0x100 * (p * q);
    }
    DivUnique(a, 0x100, p * q + r1, r0);
    assert r1 < p;
    DivUnique(a / 0x100, p, q, r1);
  }

  /** The shifted-down value's bytes are the original's bytes from position 1 on. */
  lemma ByteOfShifted(d: nat, k: nat)
    ensures ByteOf(d / 0x100, k) == ByteOf(d, k + 1)
  {
    DivDiv(d, Pow256(k));
  }

  /** Position k of the LSBF layout holds byte k: `(d >> 8k) & 0xFF`. */
  lemma {:induction false} LsbfBytesAt(d: nat, w: nat, k: nat)
    requires k < w
    ensures LsbfBytes(d, w)[k] == ByteOf(d, k)
  {
    if k > 0 {
      LsbfBytesAt(d / 0x100, w - 1, k - 1);
      ByteOfShifted(d, k - 1);
    }
  }

  /** Position k of the MSBF layout holds byte w - 1 - k: `(d >> 8(w-1-k)) & 0xFF`. */
  lemma {:induction false} MsbfBytesAt(d: nat, w: nat, k: nat)
    requires k < w
    ensures MsbfBytes(d, w)[k] == ByteOf(d, w - 1 - k)
  {
    if k < w - 1 {
      MsbfBytesAt(d / 0x100, w - 1, k);
      ByteOfShifted(d, w - 2 - k);
    }
  }

  /** The MSBF layout of a value is its LSBF layout reversed. */
  lemma MsbfIsReversedLsbf(d: nat, w: nat)
    ensures MsbfBytes(d, w) == Reverse(LsbfBytes(d, w))
  {
    forall k | 0 <= k < w
      ensures MsbfBytes(d, w)[k] == Reverse(LsbfBytes(d, w))[k]
    {
      MsbfBytesAt(d, w, k);
      ReverseAt(LsbfBytes(d, w), k);
      LsbfBytesAt(d, w, w - 1 - k);
    }
  }

  /** The two layouts of d coincide exactly when its LSBF layout is a palindrome. */
  lemma LayoutsAgreeIffPalindrome(d: nat, w: nat)
    ensures LsbfBytes(d, w) == MsbfBytes(d, w) <==> LsbfBytes(d, w) == Reverse(LsbfBytes(d, w))
  {
    MsbfIsReversedLsbf(d, w);
  }

  /** Reading an MSBF layout is reading its reversal as LSBF. */
  lemma {:induction false} MsbfValueIsReversedLsbf(s: seq<Byte>)
    ensures MsbfValue(s) == LsbfValue(Reverse(s))
  {
    if s != [] {
      MsbfValueIsReversedLsbf(s[..|s| - 1]);
      assert Reverse(s)[1..] == Reverse(s[..|s| - 1]);
    }
  }

  /** A w-byte LSBF layout reads back below 256^w. */
  lemma {:induction false} LsbfValueBound(s: seq<Byte>)
    ensures LsbfValue(s) < Pow256(|s|)
  {
    if s != [] {
      LsbfValueBound(s[1..]);
    }
  }

  /** A w-byte MSBF layout reads back below 256^w. */
  lemma {:induction false} MsbfValueBound(s: seq<Byte>)
    ensures MsbfValue(s) < Pow256(|s|)
  {
    if s != [] {
      MsbfValueBound(s[..|s| - 1]);
    }
  }

  /** Writing d in w LSBF bytes and reading them back gives d, for every d below 256^w. */
  lemma {:induction false} LsbfRoundTrip(d: nat, w: nat)
    requires d < Pow256(w)
    ensures LsbfValue(LsbfBytes(d, w)) == d
  {
    if w > 0 {
      LsbfRoundTrip(d / 0x100, w - 1);
      assert LsbfBytes(d, w)[1..] == LsbfBytes(d / 0x100, w - 1);
    }
  }

  /** Writing d in w MSBF bytes and reading them back gives d, for every d below 256^w. */
  lemma {:induction false} MsbfRoundTrip(d: nat, w: nat)
    requires d < Pow256(w)
    ensures MsbfValue(MsbfBytes(d, w)) == d
  {
    if w > 0 {
      MsbfRoundTrip(d / 0x100, w - 1);
      assert MsbfBytes(d, w)[..w - 1] == MsbfBytes(d / 0x100, w - 1);
    }
  }

  /** Reading an LSBF layout and writing the value back in as many bytes reproduces the layout. */
  lemma {:induction false} LsbfReencode(s: seq<Byte>)
    ensures LsbfBytes(LsbfValue(s), |s|) == s
  {
    if s != [] {
      LsbfReencode(s[1..]);
    }
  }

  /** Reading an MSBF layout and writing the value back in as many bytes reproduces the layout. */
  lemma {:induction false} MsbfReencode(s: seq<Byte>)
    ensures MsbfBytes(MsbfValue(s), |s|) == s
  {
    if s != [] {
      MsbfReencode(s[..|s| - 1]);
    }
  }
}
