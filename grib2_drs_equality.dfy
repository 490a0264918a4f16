/**
 * Value equality and hashing of the Section 5 records.
 *
 * Floats are 32-bit patterns. `Float.compare(a, b) == 0` holds exactly when
 * `Float.floatToIntBits` maps both to the same pattern, which collapses every NaN to
 * 0x7fc00000 and keeps +0.0 and -0.0 apart. The hash of a float field is 0 when the
 * float equals 0.0f (so for both zeros), and its `floatToIntBits` otherwise.
 */
module Grib2DrsEquality {
  import opened Octets
  import opened Grib2Drs

  // ---------------------------------------------------------------------------
  // Floats as bit patterns

  const CanonicalNaN: Bits32 := 0x7fc0_0000

  /** All exponent bits set and a non-zero fraction. */
  predicate IsNaN(x: Bits32)
  {
    (x / 0x80_0000) % 256 == 255 && x % 0x80_0000 != 0
  }

  /** `Float.floatToIntBits`: the pattern itself, except that every NaN becomes the canonical NaN. */
  function FloatToIntBits(x: Bits32): (r: Bits32)
    ensures IsNaN(x) ==> r == CanonicalNaN
    ensures !IsNaN(x) ==> r == x
  {
    if IsNaN(x) then CanonicalNaN else x
  }

  /** `Float.compare(a, b) == 0`. */
  predicate FloatSame(a: Bits32, b: Bits32)
  {
    FloatToIntBits(a) == FloatToIntBits(b)
  }

  /** Both zeros compare equal to `0.0f` under `!=`. */
  predicate IsZero(x: Bits32)
  {
    x == 0 || x == 0x8000_0000
  }

  /** `(f != 0.0f ? Float.floatToIntBits(f) : 0)`, as a Java int. */
  function FloatHash(x: Bits32): (h: int)
    ensures -TwoTo31 <= h < TwoTo31
    ensures IsZero(x) ==> h == 0
    ensures !IsZero(x) ==> (h - FloatToIntBits(x)) % TwoTo32 == 0
  {
    if IsZero(x) then 0 else JavaInt(FloatToIntBits(x))
  }

  /** Float fields that compare equal hash equally. */
  lemma FloatSameHash(a: Bits32, b: Bits32)
    requires FloatSame(a, b)
    ensures FloatHash(a) == FloatHash(b)
  {
  }

  /** +0.0 and -0.0 differ under `Float.compare` but hash alike; two NaNs compare equal. */
  lemma FloatExamples()
    ensures !FloatSame(0, 0x8000_0000) && FloatHash(0) == FloatHash(0x8000_0000)
    ensures FloatSame(0x7fc0_0001, 0xffc0_0000)
  {
    assert IsNaN(0x7fc0_0001) && IsNaN(0xffc0_0000);
  }

  // ---------------------------------------------------------------------------
  // equals

  /** `Type0.equals` on the fields it compares. */
  predicate SimpleEquals(a: SimplePacking, b: SimplePacking)
  {
    a.binaryScaleFactor == b.binaryScaleFactor && a.decimalScaleFactor == b.decimalScaleFactor &&
    a.numberOfBits == b.numberOfBits && a.originalType == b.originalType &&
    FloatSame(b.referenceValue, a.referenceValue)
  }

  /** The fields `Type2.equals` adds to `super.equals`. */
  predicate ComplexEquals(a: ComplexPacking, b: ComplexPacking)
  {
    a.bitsGroupWidths == b.bitsGroupWidths && a.bitsScaledGroupLength == b.bitsScaledGroupLength &&
    a.lengthIncrement == b.lengthIncrement && a.lengthLastGroup == b.lengthLastGroup &&
    a.missingValueManagement == b.missingValueManagement && a.numberOfGroups == b.numberOfGroups &&
    FloatSame(b.primaryMissingValue, a.primaryMissingValue) &&
    a.referenceGroupLength == b.referenceGroupLength && a.referenceGroupWidths == b.referenceGroupWidths &&
    FloatSame(b.secondaryMissingValue, a.secondaryMissingValue) &&
    a.splittingMethod == b.splittingMethod
  }

  /**
   * The `spd` loop of `Type50002.equals`: every entry of `a` matches the entry of `b` at the
   * same index. When `b` is the shorter array the Java loop throws; here that case is false.
   */
  predicate SpdMatches(a: seq<int>, b: seq<int>)
    ensures SpdMatches(a, b) <==> |a| <= |b| && forall i :: 0 <= i < |a| ==> a[i] == b[i]
  {
    |a| <= |b| && a == b[..|a|]
  }

  /** `equals` of the record classes: the same concrete class and the fields the class compares. */
  predicate Equals(a: Drs, b: Drs)
    ensures Equals(a, b) ==> a.Type50002? == b.Type50002?
    ensures Equals(a, b) && !a.Type50002? ==> !b.Type50002? && SimpleEquals(a.simple, b.simple)
    ensures Equals(a, b) && (a.Type2? || a.Type3?) ==> (b.Type2? || b.Type3?) && ComplexEquals(a.complex, b.complex)
  {
    match (a, b)
    case (Type0(x), Type0(y)) => SimpleEquals(x, y)
    case (Type2(x, c), Type2(y, e)) => SimpleEquals(x, y) && ComplexEquals(c, e)
    case (Type3(x, c, o, ds), Type3(y, e, o', ds')) =>
      SimpleEquals(x, y) && ComplexEquals(c, e) && ds == ds' && o == o'
    case (Type40(x, m, r, _), Type40(y, m', r', _)) => SimpleEquals(x, y) && m == m' && r == r'
    case (Type50002(_, _, _, _, _, _, _, _, _, _, _, _, _, _, _, _, _, _),
          Type50002(_, _, _, _, _, _, _, _, _, _, _, _, _, _, _, _, _, _)) =>
      FloatSame(b.referenceValue, a.referenceValue) &&
      a.binaryScaleFactor == b.binaryScaleFactor && a.decimalScaleFactor == b.decimalScaleFactor &&
      a.numberOfBits == b.numberOfBits && a.widthOfFirstOrderValues == b.widthOfFirstOrderValues &&
      a.p1 == b.p1 && a.p2 == b.p2 && a.widthOfWidth == b.widthOfWidth &&
      a.widthOfLength == b.widthOfLength && a.boustrophonic == b.boustrophonic &&
      a.orderOfSPD == b.orderOfSPD && a.widthOfSPD == b.widthOfSPD &&
      SpdMatches(a.spd, b.spd) &&
      a.lengthOfSection6 == b.lengthOfSection6 && a.section6 == b.section6 &&
      a.bitMapIndicator == b.bitMapIndicator && a.lengthOfSection7 == b.lengthOfSection7 &&
      a.section7 == b.section7
    case _ => false
  }

  /** The shape every decoded record has: `spd` holds `orderOfSPD + 1` entries. */
  predicate WellFormed(d: Drs)
  {
    d.Type50002? ==> |d.spd| == d.orderOfSPD as int + 1
  }

  /** Every record the decoder produces is well formed. */
  lemma DecodedWellFormed(template: int, s: seq<Octet>, p: nat)
    requires DrsAt(template, s, p).Ok?
    ensures WellFormed(DrsAt(template, s, p).value.0)
  {
  }

  lemma EqualsReflexive(a: Drs)
    ensures Equals(a, a)
  {
  }

  lemma EqualsSymmetric(a: Drs, b: Drs)
    requires WellFormed(a) && WellFormed(b)
    ensures Equals(a, b) <==> Equals(b, a)
  {
  }

  lemma EqualsTransitive(a: Drs, b: Drs, c: Drs)
    requires Equals(a, b) && Equals(b, c)
    ensures Equals(a, c)
  {
  }

  /** `getClass() != o.getClass()`: records of different classes are never equal. */
  lemma EqualsSameClass(a: Drs, b: Drs)
    requires Equals(a, b)
    ensures a.Type0? == b.Type0? && a.Type2? == b.Type2? && a.Type3? == b.Type3?
    ensures a.Type40? == b.Type40? && a.Type50002? == b.Type50002?
  {
  }

  /** A `Type2` is never equal to the `Type0` holding its own prefix, nor a `Type40` to its `Type0`. */
  lemma SubclassNotEqualToParent(x: SimplePacking, c: ComplexPacking, m: Octet, r: Octet, h: bool)
    ensures !Equals(Type0(x), Type2(x, c)) && !Equals(Type2(x, c), Type0(x))
    ensures !Equals(Type0(x), Type40(x, m, r, h)) && !Equals(Type40(x, m, r, h), Type0(x))
  {
  }

  /** `hasSignedProblem` takes no part in `Type40.equals`. */
  lemma Type40IgnoresSignedProblem(x: SimplePacking, m: Octet, r: Octet)
    ensures Equals(Type40(x, m, r, false), Type40(x, m, r, true))
  {
    EqualsReflexive(Type0(x));
  }

  /**
   * The loop of `Type50002.equals`, with the Java exception on a shorter `b` returned
   * as false.
   */
  method SpdEquals(a: seq<int>, b: seq<int>) returns (eq: bool)
    ensures eq <==> SpdMatches(a, b)
  {
    for i := 0 to |a|
      invariant i <= |b| && a[..i] == b[..i]
    {
      if i >= |b| || a[i] != b[i] {
        return false;
      }
      assert a[..i + 1] == a[..i] + [a[i]] && b[..i + 1] == b[..i] + [b[i]];
    }
    assert a == a[..|a|];
    return true;
  }

  /** `equals` computed as the classes do it, with the `spd` loop. */
  method Equal(a: Drs, b: Drs) returns (eq: bool)
    ensures eq == Equals(a, b)
  {
    if a.Type50002? && b.Type50002? {
      var spdEqual := SpdEquals(a.spd, b.spd);
      eq := FloatSame(b.referenceValue, a.referenceValue) &&
        a.binaryScaleFactor == b.binaryScaleFactor && a.decimalScaleFactor == b.decimalScaleFactor &&
        a.numberOfBits == b.numberOfBits && a.widthOfFirstOrderValues == b.widthOfFirstOrderValues &&
        a.p1 == b.p1 && a.p2 == b.p2 && a.widthOfWidth == b.widthOfWidth &&
        a.widthOfLength == b.widthOfLength && a.boustrophonic == b.boustrophonic &&
        a.orderOfSPD == b.orderOfSPD && a.widthOfSPD == b.widthOfSPD &&
        spdEqual &&
        a.lengthOfSection6 == b.lengthOfSection6 && a.section6 == b.section6 &&
        a.bitMapIndicator == b.bitMapIndicator && a.lengthOfSection7 == b.lengthOfSection7 &&
        a.section7 == b.section7;
    } else {
      eq := Equals(a, b);
    }
  }

  // ---------------------------------------------------------------------------
  // hashCode

  /** One step of `result = 31 * result + f` in Java int arithmetic. */
  function Mix(acc: int, f: int): (r: int)
    ensures -TwoTo31 <= r < TwoTo31
    ensures -TwoTo31 <= 31 * acc + f < TwoTo31 ==> r == 31 * acc + f
  {
    JavaInt(31 * acc + f)
  }

  /** `Mix` applied to each of `fs` in turn, starting from `acc`. */
  function MixAll(acc: int, fs: seq<int>): int
  {
    if |fs| == 0 then acc else Mix(MixAll(acc, fs[..|fs| - 1]), fs[|fs| - 1])
  }

  /** `Type0.hashCode`. */
  function SimpleHash(x: SimplePacking): int
  {
    var h0 := FloatHash(x.referenceValue);
    var h1 := Mix(h0, x.binaryScaleFactor);
    var h2 := Mix(h1, x.decimalScaleFactor);
    var h3 := Mix(h2, x.numberOfBits);
    Mix(h3, x.originalType)
  }

  /** The part of `Type2.hashCode` after `super.hashCode()`; secondary before primary, management before splitting. */
  function ComplexHash(h: int, c: ComplexPacking): int
  {
    var h1 := Mix(h, FloatHash(c.secondaryMissingValue));
    var h2 := Mix(h1, FloatHash(c.primaryMissingValue));
    var h3 := Mix(h2, c.missingValueManagement);
    var h4 := Mix(h3, c.splittingMethod);
    var h5 := Mix(h4, c.numberOfGroups);
    var h6 := Mix(h5, c.referenceGroupWidths);
    var h7 := Mix(h6, c.bitsGroupWidths);
    var h8 := Mix(h7, c.referenceGroupLength);
    var h9 := Mix(h8, c.lengthIncrement);
    var h10 := Mix(h9, c.lengthLastGroup);
    Mix(h10, c.bitsScaledGroupLength)
  }

  /** `Type50002.hashCode` up to and including `widthOfSPD`. */
  function Type50002HeadHash(d: Drs): int
    requires d.Type50002?
  {
    var h0 := FloatHash(d.referenceValue);
    var h1 := Mix(h0, d.binaryScaleFactor);
    var h2 := Mix(h1, d.decimalScaleFactor);
    var h3 := Mix(h2, d.numberOfBits);
    var h4 := Mix(h3, d.widthOfFirstOrderValues);
    var h5 := Mix(h4, d.p1);
    var h6 := Mix(h5, d.p2);
    var h7 := Mix(h6, d.widthOfWidth);
    var h8 := Mix(h7, d.widthOfLength);
    var h9 := Mix(h8, d.boustrophonic);
    var h10 := Mix(h9, d.orderOfSPD);
    Mix(h10, d.widthOfSPD)
  }

  /** The end of `Type50002.hashCode`: `section6` twice and no `bitMapIndicator`. */
  function Type50002TailHash(h: int, d: Drs): int
    requires d.Type50002?
  {
    var h1 := Mix(h, d.lengthOfSection6);
    var h2 := Mix(h1, d.section6);
    var h3 := Mix(h2, d.section6);
    var h4 := Mix(h3, d.lengthOfSection7);
    Mix(h4, d.section7)
  }

  /** `hashCode` of each record class, each subclass continuing from `super.hashCode()`. */
  function JavaHash(d: Drs): (h: int)
    ensures -TwoTo31 <= h < TwoTo31
  {
    match d
    case Type0(x) => SimpleHash(x)
    case Type2(x, c) => ComplexHash(SimpleHash(x), c)
    case Type3(x, c, o, ds) => Mix(Mix(ComplexHash(SimpleHash(x), c), o), ds)
    case Type40(x, m, r, _) => Mix(Mix(SimpleHash(x), m), r)
    case Type50002(_, _, _, _, _, _, _, _, _, _, _, _, _, _, _, _, _, _) =>
      Type50002TailHash(MixAll(Type50002HeadHash(d), d.spd), d)
  }

  /** The `hashCode` contract: equal records hash alike. */
  lemma EqualsSameHash(a: Drs, b: Drs)
    requires WellFormed(a) && WellFormed(b) && Equals(a, b)
    ensures JavaHash(a) == JavaHash(b)
  {
    match a
    case Type0(x) =>
      FloatSameHash(b.simple.referenceValue, x.referenceValue);
    case Type2(x, c) =>
      FloatSameHash(b.simple.referenceValue, x.referenceValue);
      FloatSameHash(b.complex.primaryMissingValue, c.primaryMissingValue);
      FloatSameHash(b.complex.secondaryMissingValue, c.secondaryMissingValue);
    case Type3(x, c, _, _) =>
      FloatSameHash(b.simple.referenceValue, x.referenceValue);
      FloatSameHash(b.complex.primaryMissingValue, c.primaryMissingValue);
      FloatSameHash(b.complex.secondaryMissingValue, c.secondaryMissingValue);
    case Type40(x, _, _, _) =>
      FloatSameHash(b.simple.referenceValue, x.referenceValue);
    case Type50002(_, _, _, _, _, _, _, _, _, _, _, _, _, _, _, _, _, _) =>
      FloatSameHash(b.referenceValue, a.referenceValue);
      assert a.spd == b.spd;
  }

  /**
   * `Type50002.hashCode` folds `section6` where `bitMapIndicator` would be expected:
   * records that differ only in `bitMapIndicator` hash alike although they are not equal.
   */
  lemma Type50002HashIgnoresBitMapIndicator(d: Drs, bmi: Octet)
    requires d.Type50002? && bmi != d.bitMapIndicator
    ensures JavaHash(d.(bitMapIndicator := bmi)) == JavaHash(d)
    ensures !Equals(d, d.(bitMapIndicator := bmi))
  {
  }

  /** `Type0.hashCode`. */
  method HashSimple(x: SimplePacking) returns (h: int)
    ensures h == SimpleHash(x)
  {
    h := FloatHash(x.referenceValue);
    h := Mix(h, x.binaryScaleFactor);
    h := Mix(h, x.decimalScaleFactor);
    h := Mix(h, x.numberOfBits);
    h := Mix(h, x.originalType);
  }

  /** `Type2.hashCode` after `int result = super.hashCode()`. */
  method HashComplex(result: int, c: ComplexPacking) returns (h: int)
    ensures h == ComplexHash(result, c)
  {
    h := result;
    h := Mix(h, FloatHash(c.secondaryMissingValue));
    h := Mix(h, FloatHash(c.primaryMissingValue));
    h := Mix(h, c.missingValueManagement);
    h := Mix(h, c.splittingMethod);
    h := Mix(h, c.numberOfGroups);
    h := Mix(h, c.referenceGroupWidths);
    h := Mix(h, c.bitsGroupWidths);
    h := Mix(h, c.referenceGroupLength);
    h := Mix(h, c.lengthIncrement);
    h := Mix(h, c.lengthLastGroup);
    h := Mix(h, c.bitsScaledGroupLength);
  }

  /** `Type50002.hashCode`, with the loop over `spd`. */
  method Hash50002(d: Drs) returns (h: int)
    requires d.Type50002?
    ensures h == JavaHash(d)
  {
    h := FloatHash(d.referenceValue);
    h := Mix(h, d.binaryScaleFactor);
    h := Mix(h, d.decimalScaleFactor);
    h := Mix(h, d.numberOfBits);
    h := Mix(h, d.widthOfFirstOrderValues);
    h := Mix(h, d.p1);
    h := Mix(h, d.p2);
    h := Mix(h, d.widthOfWidth);
    h := Mix(h, d.widthOfLength);
    h := Mix(h, d.boustrophonic);
    h := Mix(h, d.orderOfSPD);
    h := Mix(h, d.widthOfSPD);
    ghost var head := h;
    assert head == Type50002HeadHash(d);
    for i := 0 to |d.spd|
      invariant h == MixAll(head, d.spd[..i])
    {
      assert d.spd[..i + 1][..i] == d.spd[..i];
      h := Mix(h, d.spd[i]);
    }
    assert d.spd[..|d.spd|] == d.spd;
    h := Mix(h, d.lengthOfSection6);
    h := Mix(h, d.section6);
    h := Mix(h, d.section6);
    h := Mix(h, d.lengthOfSection7);
    h := Mix(h, d.section7);
  }

  /** `hashCode` of every record class. */
  method HashCode(d: Drs) returns (h: int)
    ensures h == JavaHash(d)
  {
    match d
    case Type0(x) =>
      h := HashSimple(x);
    case Type2(x, c) =>
      h := HashSimple(x);
      h := HashComplex(h, c);
    case Type3(x, c, o, ds) =>
      h := HashSimple(x);
      h := HashComplex(h, c);
      h := Mix(h, o);
      h := Mix(h, ds);
    case Type40(x, m, r, _) =>
      h := HashSimple(x);
      h := Mix(h, m);
      h := Mix(h, r);
    case Type50002(_, _, _, _, _, _, _, _, _, _, _, _, _, _, _, _, _, _) =>
      h := Hash50002(d);
  }
}
