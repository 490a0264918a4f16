/**
 * The packing rules the template 5.2 and 5.3 documentation states (WMO Manual on Codes,
 * Regulation 92.9.4): the group-length formula, the missing-value bit patterns and spatial
 * differencing of order 1 and 2. The decoder of Section 7 that applies them is not part of
 * this model; these functions state the documented rules on their own.
 */
module Grib2Packing {
  import opened Octets

  // ---------------------------------------------------------------------------
  // Spatial differencing (template 5.3, note 1)

  /** Order 1: g1 = f1 and gn = fn - fn-1. */
  function Diff1(f: seq<int>): (g: seq<int>)
    ensures |g| == |f|
    ensures |f| > 0 ==> g[0] == f[0]
    ensures forall n :: 1 <= n < |f| ==> g[n] == f[n] - f[n - 1]
  {
    seq(|f|, n requires 0 <= n < |f| => if n == 0 then f[0] else f[n] - f[n - 1])
  }

  /**
   * Order 2: h1 = f1, h2 = f2 and hn = gn - gn-1 for the order-1 differences g,
   * that is hn = fn - 2 fn-1 + fn-2.
   */
  function Diff2(f: seq<int>): (h: seq<int>)
    ensures |h| == |f|
    ensures forall n :: 0 <= n < |f| && n < 2 ==> h[n] == f[n]
    ensures forall n :: 2 <= n < |f| ==> h[n] == Diff1(f)[n] - Diff1(f)[n - 1]
  {
    seq(|f|, n requires 0 <= n < |f| => if n < 2 then f[n] else f[n] - 2 * f[n - 1] + f[n - 2])
  }

  /** Recovering the values from order-1 differences: summing up once. */
  function Undiff1(g: seq<int>): (f: seq<int>)
    ensures |f| == |g|
  {
    if |g| <= 1 then g
    else
      var u := Undiff1(g[..|g| - 1]);
      u + [u[|u| - 1] + g[|g| - 1]]
  }

  /** Recovering the values from order-2 differences: summing up twice. */
  function Undiff2(h: seq<int>): (f: seq<int>)
    ensures |f| == |h|
  {
    if |h| <= 2 then h
    else
      var u := Undiff2(h[..|h| - 1]);
      u + [2 * u[|u| - 1] - u[|u| - 2] + h[|h| - 1]]
  }

  lemma Diff1Prefix(f: seq<int>, k: nat)
    requires k <= |f|
    ensures Diff1(f[..k]) == Diff1(f)[..k]
  {
  }

  lemma Diff2Prefix(f: seq<int>, k: nat)
    requires k <= |f|
    ensures Diff2(f[..k]) == Diff2(f)[..k]
  {
  }

  /** Summing the order-1 differences gives back the field. */
  lemma {:induction false} Undiff1Diff1(f: seq<int>)
    ensures Undiff1(Diff1(f)) == f
  {
    var n := |f|;
    if n > 1 {
      var f' := f[..n - 1];
      var g := Diff1(f);
      Diff1Prefix(f, n - 1);
      Undiff1Diff1(f');
      assert Undiff1(g[..n - 1]) == f';
      assert Undiff1(g) == f' + [f'[n - 2] + g[n - 1]];
      assert f == f' + [f[n - 1]];
    }
  }

  /** Differencing the sums gives back the differences. */
  lemma {:induction false} Diff1Undiff1(g: seq<int>)
    ensures Diff1(Undiff1(g)) == g
  {
    if |g| > 1 {
      var g' := g[..|g| - 1];
      Diff1Undiff1(g');
      var f := Undiff1(g);
      assert f[..|g| - 1] == Undiff1(g');
      Diff1Prefix(f, |g| - 1);
      assert Diff1(f)[..|g| - 1] == g';
      assert Diff1(f)[|g| - 1] == g[|g| - 1];
      assert g == g' + [g[|g| - 1]];
    }
  }

  /** Summing the order-2 differences twice gives back the field. */
  lemma {:induction false} Undiff2Diff2(f: seq<int>)
    ensures Undiff2(Diff2(f)) == f
  {
    if |f| > 2 {
      var f' := f[..|f| - 1];
      Diff2Prefix(f, |f| - 1);
      Undiff2Diff2(f');
      assert Diff2(f)[..|f| - 1] == Diff2(f');
      assert f == f' + [f[|f| - 1]];
    }
  }

  /** Differencing twice the double sums gives back the differences. */
  lemma {:induction false} Diff2Undiff2(h: seq<int>)
    ensures Diff2(Undiff2(h)) == h
  {
    if |h| > 2 {
      var h' := h[..|h| - 1];
      Diff2Undiff2(h');
      var f := Undiff2(h);
      assert f[..|h| - 1] == Undiff2(h');
      Diff2Prefix(f, |h| - 1);
      assert Diff2(f)[..|h| - 1] == h';
      assert Diff2(f)[|h| - 1] == h[|h| - 1];
      assert h == h' + [h[|h| - 1]];
    }
  }

  lemma Undiff1Example()
    ensures Undiff1([100, 5, -3, 2]) == [100, 105, 102, 104]
  {
    assert [100, 5, -3, 2][..3] == [100, 5, -3];
    assert [100, 5, -3][..2] == [100, 5];
    assert [100, 5][..1] == [100];
  }

  /** The minimum of `s`, 0 for the empty sequence. */
  function MinOf(s: seq<int>): (m: int)
    ensures forall i :: 0 <= i < |s| ==> m <= s[i]
    ensures |s| > 0 ==> exists i :: 0 <= i < |s| && m == s[i]
  {
    if |s| == 0 then 0
    else if |s| == 1 then s[0]
    else
      var m := MinOf(s[1..]);
      assert forall i :: 1 <= i < |s| ==> s[1..][i - 1] == s[i];
      if s[0] <= m then s[0] else m
  }

  function Differences(f: seq<int>, order: nat): seq<int>
    requires order == 1 || order == 2
  {
    if order == 1 then Diff1(f) else Diff2(f)
  }

  /**
   * What differencing of order `order` stores: the first `order` values, the overall minimum of
   * the remaining differences, and the packed field, whose first `order` entries are dummy zeros
   * (note 2) and whose others have the minimum removed.
   */
  datatype SpatialPacked = SpatialPacked(firstValues: seq<int>, minimum: int, packed: seq<int>)

  function SpatialEncode(f: seq<int>, order: nat): (e: SpatialPacked)
    requires order == 1 || order == 2
    requires order <= |f|
    ensures |e.packed| == |f| && |e.firstValues| == order
    ensures forall i :: 0 <= i < |f| ==> e.packed[i] >= 0
    ensures forall i :: 0 <= i < order ==> e.packed[i] == 0
  {
    var d := Differences(f, order);
    var m := MinOf(d[order..]);
    assert forall i :: order <= i < |f| ==> d[order..][i - order] == d[i];
    SpatialPacked(d[..order], m, seq(|f|, i requires 0 <= i < |f| => if i < order then 0 else d[i] - m))
  }

  /** Decoding time: add the minimum back (the dummies take the stored values) and sum up recursively. */
  function SpatialDecode(e: SpatialPacked, order: nat): (f: seq<int>)
    requires order == 1 || order == 2
    requires |e.firstValues| == order <= |e.packed|
    ensures |f| == |e.packed|
  {
    var d := seq(|e.packed|, i requires 0 <= i < |e.packed| =>
      if i < order then e.firstValues[i] else e.packed[i] + e.minimum);
    if order == 1 then Undiff1(d) else Undiff2(d)
  }

  /** Decoding a spatially differenced field recovers the original scaled values. */
  lemma SpatialRoundTrip(f: seq<int>, order: nat)
    requires order == 1 || order == 2
    requires order <= |f|
    ensures SpatialDecode(SpatialEncode(f, order), order) == f
  {
    var e := SpatialEncode(f, order);
    var diffs := Differences(f, order);
    var d := seq(|e.packed|, i requires 0 <= i < |e.packed| =>
      if i < order then e.firstValues[i] else e.packed[i] + e.minimum);
    assert e.firstValues == diffs[..order];
    assert e.minimum == MinOf(diffs[order..]);
    forall i | 0 <= i < |d|
      ensures d[i] == diffs[i]
    {
      if order <= i {
        assert e.packed[i] == diffs[i] - e.minimum;
      }
    }
    assert d == diffs;
    if order == 1 {
      Undiff1Diff1(f);
    } else {
      Undiff2Diff2(f);
    }
  }

  // ---------------------------------------------------------------------------
  // Group lengths (template 5.2, note 14)

  /**
   * Ln = ref + Kn x len_inc for the NG scaled lengths K, except the last group, whose true
   * length is stored in octets 43-46.
   */
  function GroupLengths(reference: int, increment: int, scaled: seq<int>, lastLength: int): (ls: seq<int>)
    ensures |ls| == |scaled|
    ensures forall n :: 0 <= n < |scaled| - 1 ==> ls[n] == reference + scaled[n] * increment
    ensures |scaled| > 0 ==> ls[|scaled| - 1] == lastLength
  {
    seq(|scaled|, n requires 0 <= n < |scaled| =>
      if n == |scaled| - 1 then lastLength else reference + scaled[n] * increment)
  }

  /** The encoder's side: the scaled length of every group but the last; the last stores 0. */
  function ScaledLengths(lengths: seq<int>, reference: int, increment: int): (ks: seq<int>)
    requires increment > 0
    ensures |ks| == |lengths|
  {
    seq(|lengths|, n requires 0 <= n < |lengths| =>
      if n == |lengths| - 1 then 0 else (lengths[n] - reference) / increment)
  }

  /** Group lengths of the form the formula describes survive scaling and unscaling. */
  lemma GroupLengthsRoundTrip(lengths: seq<int>, reference: int, increment: int)
    requires increment > 0 && |lengths| > 0
    requires forall n :: 0 <= n < |lengths| - 1 ==> (lengths[n] - reference) % increment == 0
    ensures GroupLengths(reference, increment, ScaledLengths(lengths, reference, increment),
                         lengths[|lengths| - 1]) == lengths
  {
    var ks := ScaledLengths(lengths, reference, increment);
    var ls := GroupLengths(reference, increment, ks, lengths[|lengths| - 1]);
    forall n | 0 <= n < |lengths| - 1
      ensures ls[n] == lengths[n]
    {
      DivExact(lengths[n] - reference, increment);
    }
  }

  lemma DivExact(a: int, b: int)
    requires b > 0 && a % b == 0
    ensures a / b * b == a
  {
  }

  function Sum(s: seq<int>): int
  {
    if |s| == 0 then 0 else Sum(s[..|s| - 1]) + s[|s| - 1]
  }

  /** The NG groups hold (NG - 1) x ref + len_inc x (K1 + ... + KNG-1) + (true last length) values. */
  lemma {:induction false} GroupLengthsSum(reference: int, increment: int, scaled: seq<int>, lastLength: int)
    requires |scaled| > 0
    ensures Sum(GroupLengths(reference, increment, scaled, lastLength)) ==
      (|scaled| - 1) * reference + increment * Sum(scaled[..|scaled| - 1]) + lastLength
  {
    var ng := |scaled|;
    var ls := GroupLengths(reference, increment, scaled, lastLength);
    var ks := scaled[..ng - 1];
    assert ls[..ng - 1] == seq(|ks|, n requires 0 <= n < |ks| => reference + ks[n] * increment);
    PrefixSum(reference, increment, ks);
    assert Sum(ls) == Sum(ls[..ng - 1]) + lastLength;
  }

  lemma {:induction false} PrefixSum(reference: int, increment: int, ks: seq<int>)
    ensures Sum(seq(|ks|, n requires 0 <= n < |ks| => reference + ks[n] * increment)) ==
      |ks| * reference + increment * Sum(ks)
  {
    if |ks| > 0 {
      var k := |ks| - 1;
      var ls := seq(|ks|, n requires 0 <= n < |ks| => reference + ks[n] * increment);
      assert ls[..k] == seq(k, n requires 0 <= n < k => reference + ks[..k][n] * increment);
      PrefixSum(reference, increment, ks[..k]);
      assert increment * Sum(ks) == increment * Sum(ks[..k]) + increment * ks[k];
    }
  }

  // ---------------------------------------------------------------------------
  // Explicit missing values (template 5.2, notes 8-10, code table 5.5)

  /** A `w`-bit packed value with all bits set to 1 marks a primary missing value. */
  function PrimaryMissing(w: nat): int
  {
    Pow2(w) - 1
  }

  /** All bits set to 1 except the last marks a secondary missing value. */
  function SecondaryMissing(w: nat): int
  {
    Pow2(w) - 2
  }

  datatype PackedKind = DataValue | PrimaryMissingValue | SecondaryMissingValue

  /**
   * How a packed `w`-bit value reads under missing value management `management`
   * (code table 5.5: 0 none, 1 primary, 2 primary and secondary). A field of width 0
   * has no bits to carry a missing code, so it is always data.
   */
  function Classify(v: int, w: nat, management: int): (k: PackedKind)
    ensures k == PrimaryMissingValue <==> w >= 1 && management in {1, 2} && v == PrimaryMissing(w)
    ensures k == SecondaryMissingValue <==> w >= 1 && management == 2 && v == SecondaryMissing(w)
  {
    if w == 0 then DataValue
    else if (management == 1 || management == 2) && v == PrimaryMissing(w) then PrimaryMissingValue
    else if management == 2 && v == SecondaryMissing(w) then SecondaryMissingValue
    else DataValue
  }

  /** A zero-width value is never a missing code, whatever the management. */
  lemma ZeroWidthIsData(v: int, management: int)
    ensures Classify(v, 0, management) == DataValue
  {
  }

  /**
   * How a value of a group reads (note 10): a group of width 0 is a constant group with no
   * packed bits, so all its values are missing exactly when its reference, a field of
   * `referenceBits` bits, carries the missing code; a wider group classifies each value.
   */
  function GroupValueKind(reference: int, referenceBits: nat, groupWidth: nat, v: int, management: int): (k: PackedKind)
    ensures groupWidth == 0 ==>
      (k == PrimaryMissingValue <==> referenceBits >= 1 && management in {1, 2} && reference == PrimaryMissing(referenceBits))
    ensures groupWidth == 0 ==>
      (k == SecondaryMissingValue <==> referenceBits >= 1 && management == 2 && reference == SecondaryMissing(referenceBits))
    ensures groupWidth >= 1 ==> k == Classify(v, groupWidth, management)
  {
    if groupWidth == 0 then Classify(reference, referenceBits, management) else Classify(v, groupWidth, management)
  }

  /** Every value of a constant group reads alike: the packed value plays no part. */
  lemma ConstantGroupIgnoresValue(reference: int, referenceBits: nat, v: int, v': int, management: int)
    ensures GroupValueKind(reference, referenceBits, 0, v, management) ==
            GroupValueKind(reference, referenceBits, 0, v', management)
  {
  }

  /** An ordinary constant group, whose reference is below both missing codes, holds data. */
  lemma ConstantGroupIsData(reference: int, referenceBits: nat, v: int, management: int)
    requires reference < SecondaryMissing(referenceBits)
    ensures GroupValueKind(reference, referenceBits, 0, v, management) == DataValue
  {
  }

  /** A constant group whose reference field has all bits set holds only primary missing values. */
  lemma AllOnesReferenceGroupIsMissing(s: seq<Octet>, off: nat, referenceBits: nat, v: int, management: int)
    requires referenceBits >= 1 && off + referenceBits <= 8 * |s|
    requires forall k :: off <= k < off + referenceBits ==> BitAt(s, k) == 1
    requires management == 1 || management == 2
    ensures GroupValueKind(UBits(s, off, referenceBits), referenceBits, 0, v, management) == PrimaryMissingValue
  {
    AllOnesField(s, off, referenceBits);
  }

  /** A field of `w` one bits reads as a primary missing value when management is 1 or 2. */
  lemma AllOnesIsPrimaryMissing(s: seq<Octet>, off: nat, w: nat, management: int)
    requires w >= 1 && off + w <= 8 * |s|
    requires forall k :: off <= k < off + w ==> BitAt(s, k) == 1
    requires management == 1 || management == 2
    ensures Classify(UBits(s, off, w), w, management) == PrimaryMissingValue
  {
    AllOnesField(s, off, w);
  }

  /** A field of one bits ending in a zero reads as a secondary missing value when management is 2. */
  lemma AllOnesButLastIsSecondaryMissing(s: seq<Octet>, off: nat, w: nat)
    requires w >= 1 && off + w <= 8 * |s|
    requires forall k :: off <= k < off + w - 1 ==> BitAt(s, k) == 1
    requires BitAt(s, off + w - 1) == 0
    ensures Classify(UBits(s, off, w), w, 2) == SecondaryMissingValue
  {
    AllOnesButLastField(s, off, w);
  }

  /** Without explicit missing values every packed value is data. */
  lemma NoManagementNoMissing(v: int, w: nat)
    ensures Classify(v, w, 0) == DataValue
  {
  }
}
