/**
 * Octet-level and bit-level arithmetic used by the GRIB2 Section 5 decoder:
 * big-endian fields, the sign-and-magnitude integers of WMO Regulation 92.1.5,
 * MSB-first bit fields as read by a bit reader, and Java's 32-bit `int`.
 */
module Octets {

  /** One octet, as returned by a successful `RandomAccessFile.read()`. */
  type Octet = x: int | 0 <= x < 256

  /** A 32-bit pattern, e.g. the raw bits of an IEEE single-precision float. */
  type Bits32 = x: int | 0 <= x < 0x1_0000_0000

  const TwoTo31: int := 0x8000_0000
  const TwoTo32: int := 0x1_0000_0000

  function Pow2(n: nat): (r: nat)
    ensures r >= 1
  {
    if n == 0 then 1 else 2 * Pow2(n - 1)
  }

  /** Java's `int` arithmetic: the value congruent to `x` modulo 2^32 in [-2^31, 2^31). */
  function JavaInt(x: int): (r: int)
    ensures -TwoTo31 <= r < TwoTo31
    ensures (x - r) % TwoTo32 == 0
    ensures -TwoTo31 <= x < TwoTo31 ==> r == x
  {
    var m := x % TwoTo32;
    if m >= TwoTo31 then m - TwoTo32 else m
  }

  /** Four octets in network order, kept as a bit pattern (`readFloat` without the float). */
  function Float32At(s: seq<Octet>, i: nat): Bits32
    requires i + 4 <= |s|
  {
    ((s[i] as int * 256 + s[i + 1]) * 256 + s[i + 2]) * 256 + s[i + 3]
  }

  /** A 2-octet signed integer: the top bit is the sign and the other 15 bits the magnitude. */
  function Int2At(s: seq<Octet>, i: nat): (r: int)
    requires i + 2 <= |s|
    ensures -0x7FFF <= r <= 0x7FFF
  {
    var magnitude: int := (s[i] as int % 128) * 256 + s[i + 1];
    if s[i] >= 128 then -magnitude else magnitude
  }

  /** A 4-octet signed integer: the top bit is the sign and the other 31 bits the magnitude. */
  function Int4At(s: seq<Octet>, i: nat): (r: int)
    requires i + 4 <= |s|
    ensures -0x7FFF_FFFF <= r <= 0x7FFF_FFFF
  {
    var magnitude: int := (((s[i] as int % 128) * 256 + s[i + 1]) * 256 + s[i + 2]) * 256 + s[i + 3];
    if s[i] >= 128 then -magnitude else magnitude
  }

  /** The sign-and-magnitude encoding of `v` in two octets. */
  function EncodeInt2(v: int): (r: seq<Octet>)
    requires -0x7FFF <= v <= 0x7FFF
    ensures |r| == 2
  {
    var m := if v < 0 then -v else v;
    [(if v < 0 then 128 else 0) + m / 256, m % 256]
  }

  /** The sign-and-magnitude encoding of `v` in four octets. */
  function EncodeInt4(v: int): (r: seq<Octet>)
    requires -0x7FFF_FFFF <= v <= 0x7FFF_FFFF
    ensures |r| == 4
  {
    var m := if v < 0 then -v else v;
    [(if v < 0 then 128 else 0) + m / 0x100_0000, (m / 0x1_0000) % 256, (m / 256) % 256, m % 256]
  }

  /** Decoding a 2-octet sign-and-magnitude integer undoes its encoding. */
  lemma Int2RoundTrip(v: int)
    requires -0x7FFF <= v <= 0x7FFF
    ensures Int2At(EncodeInt2(v), 0) == v
  {
    var m := if v < 0 then -v else v;
    var s := EncodeInt2(v);
    assert s[0] % 128 == m / 256;
    assert (m / 256) * 256 + m % 256 == m;
  }

  /** Decoding a 4-octet sign-and-magnitude integer undoes its encoding. */
  lemma Int4RoundTrip(v: int)
    requires -0x7FFF_FFFF <= v <= 0x7FFF_FFFF
    ensures Int4At(EncodeInt4(v), 0) == v
  {
    var m := if v < 0 then -v else v;
    var s := EncodeInt4(v);
    var q1, q2, q3 := m / 256, m / 0x1_0000, m / 0x100_0000;
    assert q2 == q1 / 256 && q3 == q2 / 256;
    assert q3 < 128;
    assert s[0] % 128 == q3;
    assert q3 * 256 + q2 % 256 == q2;
    assert q2 * 256 + q1 % 256 == q1;
    assert q1 * 256 + m % 256 == m;
  }

  /** Sign and magnitude is not two's complement: octets 0x80 0x03 hold -3, not -32765. */
  lemma Int2NegativeExample()
    ensures Int2At([0x80, 0x03], 0) == -3
    ensures Int2At([0xFF, 0xFD], 0) == -0x7FFD
  {
  }

  /** Bit `k` of `s`, counting from the most significant bit of `s[0]`. */
  function BitAt(s: seq<Octet>, k: nat): (b: nat)
    requires k < 8 * |s|
    ensures b < 2
  {
    (s[k / 8] / Pow2(7 - k % 8)) % 2
  }

  /** The unsigned `w`-bit field starting at bit `off`, most significant bit first. */
  function UBits(s: seq<Octet>, off: nat, w: nat): (r: nat)
    requires off + w <= 8 * |s|
    ensures r < Pow2(w)
  {
    if w == 0 then 0 else 2 * UBits(s, off, w - 1) + BitAt(s, off + w - 1)
  }

  /**
   * The signed `w`-bit field starting at bit `off` in the GRIB sign-and-magnitude
   * convention: the first bit is the sign, the remaining `w - 1` bits the magnitude.
   */
  function SBits(s: seq<Octet>, off: nat, w: nat): (r: int)
    requires off + w <= 8 * |s|
    ensures w >= 1 ==> -(Pow2(w - 1) as int) < r < Pow2(w - 1)
    ensures w >= 1 && BitAt(s, off) == 0 ==> r == UBits(s, off + 1, w - 1)
    ensures w >= 1 && BitAt(s, off) == 1 ==> r == -(UBits(s, off + 1, w - 1) as int)
  {
    if w == 0 then 0
    else
      var magnitude: int := UBits(s, off + 1, w - 1);
      if BitAt(s, off) == 1 then -magnitude else magnitude
  }

  /** A field whose bits are all 1 reads as 2^w - 1. */
  lemma {:induction false} AllOnesField(s: seq<Octet>, off: nat, w: nat)
    requires off + w <= 8 * |s|
    requires forall j :: off <= j < off + w ==> BitAt(s, j) == 1
    ensures UBits(s, off, w) == Pow2(w) - 1
  {
    if w > 0 {
      AllOnesField(s, off, w - 1);
    }
  }

  /** A field of at least one bit whose bits are all 1 except the last reads as 2^w - 2. */
  lemma AllOnesButLastField(s: seq<Octet>, off: nat, w: nat)
    requires w >= 1 && off + w <= 8 * |s|
    requires forall j :: off <= j < off + w - 1 ==> BitAt(s, j) == 1
    requires BitAt(s, off + w - 1) == 0
    ensures UBits(s, off, w) == Pow2(w) - 2
  {
    AllOnesField(s, off, w - 1);
  }

  /** The 5-bit field 1 0011 (sign 1, magnitude 3) reads as -3; two's complement would give -13. */
  lemma SignMagnitudeBitsExample()
    ensures SBits([0x98], 0, 5) == -3
  {
    var s: seq<Octet> := [0x98];
    assert Pow2(3) == 8 && Pow2(4) == 16 && Pow2(5) == 32 && Pow2(6) == 64 && Pow2(7) == 128;
    assert BitAt(s, 0) == 1;
    assert BitAt(s, 1) == 0 && BitAt(s, 2) == 0 && BitAt(s, 3) == 1 && BitAt(s, 4) == 1;
    assert UBits(s, 1, 1) == 0;
    assert UBits(s, 1, 2) == 0;
    assert UBits(s, 1, 3) == 1;
    assert UBits(s, 1, 4) == 3;
  }
}
