# GRIB2 data representation records and the DAP2 connection helpers

This project models two parts of a Java library that reads scientific data formats.

**GRIB2 Section 5 (data representation section).** `Grib2Drs.factory` gets a template number and a file
positioned just after the section's first 11 octets. It reads one of five records:

- template 5.0 (simple packing), also used for template 5.41;
- 5.2 (complex packing);
- 5.3 (complex packing with spatial differencing);
- 5.40 (JPEG 2000);
- ECMWF's template 50002 (second-order packing).

The model has these parts:

- **Octets.** The file is a sequence of octets. `Octets` fixes how big-endian floats, 2- and 4-octet sign-magnitude integers and BitReader bit fields are read.
- **Specification.** `Grib2Drs.DrsAt` is a pure specification of the whole section. It covers which templates are supported, how many octets each record takes, and the value of every field.
- **Imperative decoder.** `Grib2Drs.ByteCursor` is a class with a position field that stands for the `RandomAccessFile`. `NewType0` … `NewType50002` and `Factory` are methods that read through it, each one proved against `DrsAt`.
- **Equality and hashing.** `Grib2DrsEquality` models each class's `equals` and `hashCode`, including Java's 32-bit `int` wrap-around and `Float.compare` / `Float.floatToIntBits`. It proves that `equals` is an equivalence and that equal records hash alike.
- **Packing formulas.** `Grib2Packing` states the formulas that the template comments describe:
  - spatial differencing of order 1 and 2, with the minimum removed and the dummy first values;
  - the group-length formula Ln = ref + Kn × len_inc, with the true last length;
  - the "all bits 1" and "all bits 1 but the last" missing-value codes of Code table 5.5, and note 10's rule that a constant (zero-width) group is missing exactly when its group reference carries the code.

  Differencing and the group-length formula are each proved against their inverse. The missing-value codes are proved against the bit-level reading of a field whose bits are all set, or all set but the last.

**DAP2 connection (`DConnect2`).** The model covers four pieces:

- **The constructor split.** The constructor splits a URL at its first `?` into the base URL and a constraint expression (CE). It then splits the CE at its first `&` into a projection and a selection.
- **`getCompleteCE`.** It merges a caller's CE with the "sticky" CE held by the connection.
- **`captureDataDDS`.** It copies a byte stream into a growing buffer until the first `\nData:\n` or `\nData:\r\n` marker. It returns the bytes before the marker.
- **`endswith` and `need`.** These are its two helpers.

The class keeps its fields and its methods. The static helpers are methods over `array`s, proved against specification predicates on sequences.

Where a comment and the code disagree, the model follows the code. The comment on `projString` (DConnect2.java lines 89-91) says the projection includes its leading `?`. The constructor drops the `?` that separates the URL from the CE, and only that one. It does start with `?` when the URL holds `??`: `h??a` stores the projection `?a` (`SecondQuestionStaysInProjection`).

## Model

| member | source | states |
|---|---|---|
| Octets.JavaInt | grib/src/main/java/ucar/nc2/grib/grib2/Grib2Drs.java:474-476 | the `(int)` cast and `int` arithmetic: result lies in the 32-bit range, is congruent to the input modulo 2^32, and equals it when it already fits |
| Octets.Int2At | grib/src/main/java/ucar/nc2/grib/grib2/Grib2Drs.java:80-81 | a 2-octet sign-magnitude integer lies in ±0x7FFF |
| Octets.Int4At | grib/src/main/java/ucar/nc2/grib/grib2/Grib2Drs.java:227 | a 4-octet sign-magnitude integer lies in ±0x7FFFFFFF |
| Octets.Int2RoundTrip | grib/src/main/java/ucar/nc2/grib/grib2/Grib2Drs.java:70 | every value in range, negative ones included, is read back from its 2-octet sign-magnitude encoding |
| Octets.Int4RoundTrip | grib/src/main/java/ucar/nc2/grib/grib2/Grib2Drs.java:70 | the same round trip for 4-octet integers |
| Octets.Int2NegativeExample | grib/src/main/java/ucar/nc2/grib/grib2/Grib2Drs.java:70 | the top bit is a sign, not a two's-complement weight (0x8003 reads as -3) |
| Octets.BitAt | grib/src/main/java/ucar/nc2/grib/grib2/Grib2Drs.java:472-474 | the bit at a bit offset, most significant first, is 0 or 1 |
| Octets.UBits | grib/src/main/java/ucar/nc2/grib/grib2/Grib2Drs.java:474 | an unsigned w-bit field is below 2^w |
| Octets.SBits | grib/src/main/java/ucar/nc2/grib/grib2/Grib2Drs.java:476 | a signed w-bit field is the magnitude of its last w-1 bits, negated exactly when its first bit is 1, and lies strictly within ±2^(w-1) |
| Octets.SignMagnitudeBitsExample | grib/src/main/java/ucar/nc2/grib/grib2/Grib2Drs.java:476 | the 5-bit field 10011 reads as -3 |
| Octets.AllOnesField | grib/src/main/java/ucar/nc2/grib/grib2/Grib2Drs.java:182-183 | a field with every bit set reads as 2^w - 1 |
| Octets.AllOnesButLastField | grib/src/main/java/ucar/nc2/grib/grib2/Grib2Drs.java:184-186 | a field with every bit set except the last reads as 2^w - 2 |
| Grib2Drs.SpdAt | grib/src/main/java/ucar/nc2/grib/grib2/Grib2Drs.java:471-476 | the spatial-differencing descriptors hold exactly orderOfSPD + 1 values |
| Grib2Drs.SpdLayout | grib/src/main/java/ucar/nc2/grib/grib2/Grib2Drs.java:473-476 | the first orderOfSPD descriptors are consecutive unsigned fields and the last one is a signed field, each widthOfSPD bits wide, cast to `int` |
| Grib2Drs.SimpleAt | grib/src/main/java/ucar/nc2/grib/grib2/Grib2Drs.java:78-84 | the template 5.0 fields, with both scale factors (2-octet sign-magnitude) within ±0x7FFF |
| Grib2Drs.ComplexAt | grib/src/main/java/ucar/nc2/grib/grib2/Grib2Drs.java:221-234 | the template 5.2 fields, with the 4-octet number of groups, reference group length and true last length within ±0x7FFFFFFF |
| Grib2Drs.SimpleAtLocal | grib/src/main/java/ucar/nc2/grib/grib2/Grib2Drs.java:78-84 | the template 5.0 record depends only on its own ten octets, wherever they lie |
| Grib2Drs.ComplexAtLocal | grib/src/main/java/ucar/nc2/grib/grib2/Grib2Drs.java:221-234 | the template 5.2 fields depend only on their own 36 octets |
| Grib2Drs.GetNGroups | grib/src/main/java/ucar/nc2/grib/grib2/Grib2Drs.java:236-239 | `getNGroups` is the number of groups for Type2 and Type3 records (the override) and 1 for every other class (lines 44-46) |
| Grib2Drs.Type50002RecordOf | grib/src/main/java/ucar/nc2/grib/grib2/Grib2Drs.java:457-482 | proof step of `NewType50002`: a Type50002 record whose 18 fields hold the values read at the offsets of lines 459-481 is the record `Type50002Record` gives |
| Grib2Drs.DrsAt | grib/src/main/java/ucar/nc2/grib/grib2/Grib2Drs.java:23-39 | decoding succeeds iff the template is supported and its octets are present. Otherwise the error is "unsupported DRS type" for an unknown template and end-of-file for a short file. The record's class matches the template (0 and 41 give Type0), and the octets consumed are the record's own length. Each template's table is one helper: `Type0At` (lines 78-84), `Type2At` (221-234), `Type3At` (348-352), `Type40At` (395-399), and `Type50002At` with `Type50002Record` (457-482) |
| Grib2Drs.Template41IsTemplate0 | grib/src/main/java/ucar/nc2/grib/grib2/Grib2Drs.java:25-27 | template 41 decodes exactly as template 0, to a Type0 record |
| Grib2Drs.UnsupportedRejected | grib/src/main/java/ucar/nc2/grib/grib2/Grib2Drs.java:36-37 | every other template number is rejected with its own number, whatever the file holds |
| Grib2Drs.Type2ExtendsType0 | grib/src/main/java/ucar/nc2/grib/grib2/Grib2Drs.java:221-222 | a template 5.2 record starts with the template 5.0 record at the same position (`super(raf)`) |
| Grib2Drs.Type3ExtendsType2 | grib/src/main/java/ucar/nc2/grib/grib2/Grib2Drs.java:348-352 | a template 5.3 record is the template 5.2 record followed by the order of spatial differencing and the descriptor octet count |
| Grib2Drs.Type40ExtendsType0 | grib/src/main/java/ucar/nc2/grib/grib2/Grib2Drs.java:395-399 | a template 5.40 record is the template 5.0 record followed by compression method and ratio, with `hasSignedProblem` false |
| Grib2Drs.NGroupsOfDecoded | grib/src/main/java/ucar/nc2/grib/grib2/Grib2Drs.java:236-239 | `getNGroups` is octets 32-35 (number of groups) for templates 5.2 and 5.3 and 1 for every other record (lines 44-46) |
| Grib2Drs.ByteCursor.Read | grib/src/main/java/ucar/nc2/grib/grib2/Grib2Drs.java:82 | reading one octet succeeds iff one is left, returns it and advances by one; otherwise end-of-file with the position unchanged |
| Grib2Drs.ByteCursor.ReadFloat | grib/src/main/java/ucar/nc2/grib/grib2/Grib2Drs.java:79 | reading a float returns `Float32At`, the 4 big-endian octets at the position, and advances by 4. Otherwise it reports end-of-file, with every octet that was left consumed |
| Grib2Drs.ByteCursor.Int2 | grib/src/main/java/ucar/nc2/grib/grib2/Grib2Drs.java:80 | reading `int2` returns the sign-magnitude value and advances by 2, or end-of-file with the remaining octets consumed |
| Grib2Drs.ByteCursor.Int4 | grib/src/main/java/ucar/nc2/grib/grib2/Grib2Drs.java:227 | reading `int4` returns the sign-magnitude value and advances by 4, or end-of-file with the remaining octets consumed |
| Grib2Drs.NewType0 | grib/src/main/java/ucar/nc2/grib/grib2/Grib2Drs.java:78-84 | the Type0 constructor yields the 10-octet simple-packing record and advances by 10, failing iff fewer octets remain |
| Grib2Drs.NewType2 | grib/src/main/java/ucar/nc2/grib/grib2/Grib2Drs.java:221-234 | the Type2 constructor yields the simple and complex fields (36 octets) and advances by 36 |
| Grib2Drs.NewType3 | grib/src/main/java/ucar/nc2/grib/grib2/Grib2Drs.java:348-352 | the Type3 constructor adds the two spatial-differencing octets (38 in all) |
| Grib2Drs.NewType40 | grib/src/main/java/ucar/nc2/grib/grib2/Grib2Drs.java:395-399 | the Type40 constructor adds compression method and ratio (12 in all), `hasSignedProblem` false |
| Grib2Drs.ReadHead | grib/src/main/java/ucar/nc2/grib/grib2/Grib2Drs.java:459-470 | the first 23 octets of template 50002 are read into their fields in order |
| Grib2Drs.ReadSpd | grib/src/main/java/ucar/nc2/grib/grib2/Grib2Drs.java:471-476 | the descriptors are read with a BitReader from the current position, and the file advances past the octets they occupy |
| Grib2Drs.ReadBitFields | grib/src/main/java/ucar/nc2/grib/grib2/Grib2Drs.java:473-476 | the loop yields exactly the descriptors `SpdAt` specifies |
| Grib2Drs.ReadTrailer | grib/src/main/java/ucar/nc2/grib/grib2/Grib2Drs.java:477-481 | the section 6/7 lengths and numbers and the bit-map indicator are read in order (11 octets) |
| Grib2Drs.NewType50002 | grib/src/main/java/ucar/nc2/grib/grib2/Grib2Drs.java:457-482 | the Type50002 constructor succeeds iff the whole record fits, yields the record `DrsAt` specifies and advances by its length |
| Grib2Drs.Factory | grib/src/main/java/ucar/nc2/grib/grib2/Grib2Drs.java:23-39 | `factory` returns exactly what `DrsAt` specifies at the file position, advances by the octets consumed, and leaves the position alone for an unsupported template |
| Grib2DrsEquality.FloatToIntBits | grib/src/main/java/ucar/nc2/grib/grib2/Grib2Drs.java:134 | `Float.floatToIntBits` maps every NaN to the canonical NaN and leaves other bit patterns unchanged |
| Grib2DrsEquality.FloatHash | grib/src/main/java/ucar/nc2/grib/grib2/Grib2Drs.java:134 | the float's hash contribution is 0 for +0 and -0 and otherwise `floatToIntBits` as an `int` |
| Grib2DrsEquality.FloatSameHash | grib/src/main/java/ucar/nc2/grib/grib2/Grib2Drs.java:128-134 | floats that `Float.compare` calls equal give the same hash contribution |
| Grib2DrsEquality.FloatExamples | grib/src/main/java/ucar/nc2/grib/grib2/Grib2Drs.java:128-134 | +0 and -0 differ under `Float.compare` yet hash alike, and two different NaNs compare equal |
| Grib2DrsEquality.DecodedWellFormed | grib/src/main/java/ucar/nc2/grib/grib2/Grib2Drs.java:471 | every decoded template 50002 record has `orderOfSPD + 1` descriptors |
| Grib2DrsEquality.SpdMatches | grib/src/main/java/ucar/nc2/grib/grib2/Grib2Drs.java:556-560 | the descriptor loop succeeds iff every entry of this record's array equals the other's entry at the same index, the other array being at least as long |
| Grib2DrsEquality.Equals | grib/src/main/java/ucar/nc2/grib/grib2/Grib2Drs.java:510-575 | only two template 50002 records can be equal. For the other classes `super.equals` holds: `SimpleEquals`, the Type0 comparisons of lines 106-130, holds. For Type2/Type3, `ComplexEquals`, the Type2 comparisons of lines 252-297, holds too |
| Grib2DrsEquality.EqualsReflexive | grib/src/main/java/ucar/nc2/grib/grib2/Grib2Drs.java:106-130 | every record equals itself |
| Grib2DrsEquality.EqualsSymmetric | grib/src/main/java/ucar/nc2/grib/grib2/Grib2Drs.java:510-575 | `equals` is symmetric on well-formed records |
| Grib2DrsEquality.EqualsTransitive | grib/src/main/java/ucar/nc2/grib/grib2/Grib2Drs.java:510-575 | `equals` is transitive |
| Grib2DrsEquality.EqualsSameClass | grib/src/main/java/ucar/nc2/grib/grib2/Grib2Drs.java:110-112 | equal records are of the same class (the `getClass()` test) |
| Grib2DrsEquality.SubclassNotEqualToParent | grib/src/main/java/ucar/nc2/grib/grib2/Grib2Drs.java:419-424 | a Type2 or Type40 record is never equal to a Type0 record, in either direction, even with the same inherited fields |
| Grib2DrsEquality.Type40IgnoresSignedProblem | grib/src/main/java/ucar/nc2/grib/grib2/Grib2Drs.java:415-433 | Type40 `equals` does not look at `hasSignedProblem` |
| Grib2DrsEquality.SpdEquals | grib/src/main/java/ucar/nc2/grib/grib2/Grib2Drs.java:556-560 | the descriptor loop reports equality iff the arrays match (see Left out for the length mismatch) |
| Grib2DrsEquality.Equal | grib/src/main/java/ucar/nc2/grib/grib2/Grib2Drs.java:510-575 | the result is exactly `Equals`. For template 50002 the descriptor comparison is the `SpdEquals` loop. For the other four classes the method evaluates the `Equals` predicate directly, with no loop of its own |
| Grib2DrsEquality.Mix | grib/src/main/java/ucar/nc2/grib/grib2/Grib2Drs.java:135-138 | `31 * result + f` stays in the `int` range and is exact when it does not overflow |
| Grib2DrsEquality.JavaHash | grib/src/main/java/ucar/nc2/grib/grib2/Grib2Drs.java:578-600 | every class's `hashCode` is a 32-bit Java `int`. Type0, Type2, Type3 and Type40 are built from `SimpleHash` (the Type0 fold, lines 133-140) and `ComplexHash` (the Type2 continuation, lines 300-314). Type50002 is built from `Type50002HeadHash` (the fold of the head fields, lines 578-590), `MixAll` over the descriptors (the `for (int i1 : spd)` loop, lines 591-593) and `Type50002TailHash` (lines 594-598, which fold `section6` twice and leave out `bitMapIndicator`) |
| Grib2DrsEquality.EqualsSameHash | grib/src/main/java/ucar/nc2/grib/grib2/Grib2Drs.java:578-600 | well-formed records that are `equals` have the same `hashCode`, for every class |
| Grib2DrsEquality.Type50002HashIgnoresBitMapIndicator | grib/src/main/java/ucar/nc2/grib/grib2/Grib2Drs.java:594-596 | Type50002 `hashCode` folds `section6` twice and never `bitMapIndicator`. Records differing only there are unequal yet hash alike |
| Grib2DrsEquality.HashSimple | grib/src/main/java/ucar/nc2/grib/grib2/Grib2Drs.java:133-140 | the Type0 `hashCode` statements compute the simple-field fold |
| Grib2DrsEquality.HashComplex | grib/src/main/java/ucar/nc2/grib/grib2/Grib2Drs.java:300-314 | the Type2 `hashCode` statements extend it with the complex fields |
| Grib2DrsEquality.Hash50002 | grib/src/main/java/ucar/nc2/grib/grib2/Grib2Drs.java:578-600 | the Type50002 `hashCode`, descriptor loop included, computes `JavaHash` |
| Grib2DrsEquality.HashCode | grib/src/main/java/ucar/nc2/grib/grib2/Grib2Drs.java:436-441 | every class's `hashCode`, through its `super.hashCode()` chain, computes `JavaHash` |
| Grib2Packing.Diff1 | grib/src/main/java/ucar/nc2/grib/grib2/Grib2Drs.java:330-331 | order-1 differencing keeps f1 and replaces each later value by its difference from the previous one |
| Grib2Packing.Diff2 | grib/src/main/java/ucar/nc2/grib/grib2/Grib2Drs.java:332-334 | order-2 differencing keeps f1, f2 and differences g from then on |
| Grib2Packing.Undiff1 | grib/src/main/java/ucar/nc2/grib/grib2/Grib2Drs.java:336-337 | order-1 decoding, summing up recursively, yields one value per difference; Undiff1Diff1 and Diff1Undiff1 make it the inverse of Diff1 |
| Grib2Packing.Undiff2 | grib/src/main/java/ucar/nc2/grib/grib2/Grib2Drs.java:336-337 | order-2 decoding yields one value per difference; Undiff2Diff2 and Diff2Undiff2 make it the inverse of Diff2 |
| Grib2Packing.Diff1Prefix | grib/src/main/java/ucar/nc2/grib/grib2/Grib2Drs.java:330-331 | differencing a prefix gives the prefix of the differences |
| Grib2Packing.Diff2Prefix | grib/src/main/java/ucar/nc2/grib/grib2/Grib2Drs.java:332-334 | the same for order 2 |
| Grib2Packing.Undiff1Diff1 | grib/src/main/java/ucar/nc2/grib/grib2/Grib2Drs.java:336-337 | summing up recursively recovers the field from its order-1 differences |
| Grib2Packing.Diff1Undiff1 | grib/src/main/java/ucar/nc2/grib/grib2/Grib2Drs.java:336-337 | and differencing the sums gives back the differences |
| Grib2Packing.Undiff2Diff2 | grib/src/main/java/ucar/nc2/grib/grib2/Grib2Drs.java:336-337 | the same recovery at order 2 |
| Grib2Packing.Diff2Undiff2 | grib/src/main/java/ucar/nc2/grib/grib2/Grib2Drs.java:336-337 | and its converse |
| Grib2Packing.Undiff1Example | grib/src/main/java/ucar/nc2/grib/grib2/Grib2Drs.java:336-337 | a worked decoding: 100, 5, -3, 2 sums to 100, 105, 102, 104 |
| Grib2Packing.MinOf | grib/src/main/java/ucar/nc2/grib/grib2/Grib2Drs.java:334 | the overall minimum is at most every value and is one of them |
| Grib2Packing.SpatialEncode | grib/src/main/java/ucar/nc2/grib/grib2/Grib2Drs.java:334-340 | after removing the minimum every packed value is non-negative, and the first `order` packed values are the zero dummies |
| Grib2Packing.SpatialDecode | grib/src/main/java/ucar/nc2/grib/grib2/Grib2Drs.java:335-337 | decoding yields one value per packed value |
| Grib2Packing.SpatialRoundTrip | grib/src/main/java/ucar/nc2/grib/grib2/Grib2Drs.java:329-340 | adding the minimum back and summing up recursively recovers the original field from the packed form |
| Grib2Packing.GroupLengths | grib/src/main/java/ucar/nc2/grib/grib2/Grib2Drs.java:200-206 | Ln = ref + Kn × len_inc for every group but the last, whose length is the stored true length |
| Grib2Packing.ScaledLengths | grib/src/main/java/ucar/nc2/grib/grib2/Grib2Drs.java:203-204 | one scaled length K per group |
| Grib2Packing.GroupLengthsRoundTrip | grib/src/main/java/ucar/nc2/grib/grib2/Grib2Drs.java:196-206 | lengths that the formula can express are recovered exactly from their scaled form and the true last length |
| Grib2Packing.GroupLengthsSum | grib/src/main/java/ucar/nc2/grib/grib2/Grib2Drs.java:200-206 | the total of all group lengths is (NG-1) × ref + len_inc × ΣK over the first NG-1 groups + the last length |
| Grib2Packing.Classify | grib/src/main/java/ucar/nc2/grib/grib2/Grib2Drs.java:209-212 | a packed value of width w ≥ 1 is primary missing iff management is 1 or 2 and it is all ones, and secondary iff management is 2 and it is all ones but the last bit; a zero-width value is never missing |
| Grib2Packing.AllOnesIsPrimaryMissing | grib/src/main/java/ucar/nc2/grib/grib2/Grib2Drs.java:182-183 | a field of at least one bit with all bits set is read as a primary missing value |
| Grib2Packing.AllOnesButLastIsSecondaryMissing | grib/src/main/java/ucar/nc2/grib/grib2/Grib2Drs.java:184-186 | a field with all bits set but the last is read as a secondary missing value |
| Grib2Packing.NoManagementNoMissing | grib/src/main/java/ucar/nc2/grib/grib2/Grib2Drs.java:210 | with management 0 every value is data |
| Grib2Packing.ZeroWidthIsData | grib/src/main/java/ucar/nc2/grib/grib2/Grib2Drs.java:187-191 | a value of width 0 carries no bits and so is never a missing code |
| Grib2Packing.GroupValueKind | grib/src/main/java/ucar/nc2/grib/grib2/Grib2Drs.java:187-191 | in a constant group (width 0) every value is primary or secondary missing exactly when the group reference carries that code at the references' width; in a wider group each value is classified on its own |
| Grib2Packing.ConstantGroupIgnoresValue | grib/src/main/java/ucar/nc2/grib/grib2/Grib2Drs.java:187-191 | all values of a constant group read alike |
| Grib2Packing.ConstantGroupIsData | grib/src/main/java/ucar/nc2/grib/grib2/Grib2Drs.java:187-191 | a constant group whose reference is below both missing codes holds data |
| Grib2Packing.AllOnesReferenceGroupIsMissing | grib/src/main/java/ucar/nc2/grib/grib2/Grib2Drs.java:187-191 | a constant group whose reference field has all bits set holds only primary missing values |
| DConnect.IndexOf | opendap/src/main/java/opendap/dap/DConnect2.java:142 | `indexOf` is -1 iff the character is absent, and otherwise its first occurrence |
| DConnect.SplitSelection | opendap/src/main/java/opendap/dap/DConnect2.java:146-153 | the CE is projection + selection; the projection has no `&`; the selection is empty or starts with `&` |
| DConnect.SplitSelectionUnique | opendap/src/main/java/opendap/dap/DConnect2.java:146-153 | those three facts determine the split: it is the only one |
| DConnect.SplitUrl | opendap/src/main/java/opendap/dap/DConnect2.java:142-157 | with a `?`, base + `?` + CE gives back the URL and the base has no `?`; without one, the base is the whole URL and the CE is empty |
| DConnect.SecondQuestionStaysInProjection | opendap/src/main/java/opendap/dap/DConnect2.java:142-151 | only the separating `?` is removed: `h??a` splits into base `h` and projection `?a` |
| DConnect.DConnect2.constructor | opendap/src/main/java/opendap/dap/DConnect2.java:141-158 | the constructor stores that split, so `URL()` + `?` + `CE()` is the URL given, and it stores `acceptCompress` |
| DConnect.StripQuestion | opendap/src/main/java/opendap/dap/DConnect2.java:590-591 | one leading `?` is removed and nothing else changes |
| DConnect.AmpPrefixed | opendap/src/main/java/opendap/dap/DConnect2.java:612-622 | a selection that already starts with `&` is appended as is; any other non-empty selection gets one `&` in front; an empty one adds nothing |
| DConnect.JoinProjections | opendap/src/main/java/opendap/dap/DConnect2.java:604-610 | either projection alone is kept unchanged; when both are non-empty they are joined by `,` unless the local one already starts with `,` |
| DConnect.CompleteCE | opendap/src/main/java/opendap/dap/DConnect2.java:584-635 | a null CE gives `""`; every other result is empty or starts with `?`. The merge of lines 604-622 is `MergeCE`, whose layout `MergeCEParts` states |
| DConnect.CompleteCEIgnoresLeadingQuestion | opendap/src/main/java/opendap/dap/DConnect2.java:589-591 | for a CE x that does not itself start with `?`, `?`+x and x give the same result. Without that condition the claim fails (`CompleteCEStripsOnlyOneQuestion`) |
| DConnect.CompleteCEStripsOnlyOneQuestion | opendap/src/main/java/opendap/dap/DConnect2.java:589-591 | only one `?` is stripped: `??a` stays `??a`, and `?a` stays `?a` |
| DConnect.CompleteCEWithoutSticky | opendap/src/main/java/opendap/dap/DConnect2.java:604-625 | with no sticky CE the result is the caller's CE behind one `?` |
| DConnect.MergeCEParts | opendap/src/main/java/opendap/dap/DConnect2.java:604-622 | the merged CE splits back into the joined projections and the sticky selection followed by the local one |
| DConnect.CompleteCEOfEmpty | opendap/src/main/java/opendap/dap/DConnect2.java:604-625 | an empty caller CE gives the sticky CE behind `?` |
| DConnect.StickyRoundTrip | opendap/src/main/java/opendap/dap/DConnect2.java:141-157 | for a URL with a non-empty CE, base URL + `getCompleteCE("")` rebuilds the original URL |
| DConnect.EmptySelectionIsNull | opendap/src/main/java/opendap/dap/DConnect2.java:647-648 | an empty selection is treated as null |
| DConnect.PartsAgreeWithSingle | opendap/src/main/java/opendap/dap/DConnect2.java:644-663 | when `proj` does not start with `??`, `getCompleteCE(proj, null)` agrees with `getCompleteCE(proj)`. For `??a` they differ, because each strips one `?` (`?a` against `??a`) |
| DConnect.PartsSelection | opendap/src/main/java/opendap/dap/DConnect2.java:649-661 | the built CE splits into the projection without its `?` and the selection with one `&` in front |
| DConnect.LocalParts | opendap/src/main/java/opendap/dap/DConnect2.java:589-602 | the local projection and selection are exactly the first-`&` split of the CE after one leading `?` is removed |
| DConnect.DConnect2.GetCompleteCE | opendap/src/main/java/opendap/dap/DConnect2.java:584-635 | `getCompleteCE(String)` computes exactly `CompleteCE` of the connection's sticky parts |
| DConnect.DConnect2.GetCompleteCEParts | opendap/src/main/java/opendap/dap/DConnect2.java:644-663 | `getCompleteCE(proj, sel)` computes `CompleteCE` of the string it builds, `JoinParts(proj, sel)`: lines 649-661 turn it into `proj` less one `?`, followed by `sel` behind `&` |
| DConnect.MarkerLength | opendap/src/main/java/opendap/dap/DConnect2.java:361-362 | a marker is 7 or 8 bytes long |
| DConnect.TagsNeverEndTogether | opendap/src/main/java/opendap/dap/DConnect2.java:361-362 | the two markers never end at the same position, so the order of the two `endswith` tests is irrelevant |
| DConnect.NoMarkerWithoutNewline | opendap/src/main/java/opendap/dap/DConnect2.java:374 | a marker can only end on a newline, which is why only `\n` triggers the tests |
| DConnect.FirstEndingMarkerStartsFirst | opendap/src/main/java/opendap/dap/DConnect2.java:374-385 | the first marker to end is also the first to start |
| DConnect.EndsWithOnPrefix | opendap/src/main/java/opendap/dap/DConnect2.java:392-404 | whether a tag ends at a position depends only on the bytes before it |
| DConnect.MarkerOnPrefix | opendap/src/main/java/opendap/dap/DConnect2.java:374-385 | the same for markers, with the same length |
| DConnect.ExtendNoMarker | opendap/src/main/java/opendap/dap/DConnect2.java:370-386 | the loop's "no marker yet" fact extends by one byte |
| DConnect.EndsWith | opendap/src/main/java/opendap/dap/DConnect2.java:392-404 | `endswith` is true iff the tag's bytes are those just before `pos`, and false when `pos` is shorter than the tag |
| DConnect.Grow | opendap/src/main/java/opendap/dap/DConnect2.java:409-412 | the loop raises `newlen` to `n` and leaves a larger value alone |
| DConnect.Need | opendap/src/main/java/opendap/dap/DConnect2.java:406-416 | with room left the buffer is returned as is; otherwise a fresh buffer of 2·len + n, zero beyond the copied first len bytes, with room for n more |
| DConnect.Put | opendap/src/main/java/opendap/dap/DConnect2.java:371-373 | after `need(1, …)` and the store, the buffer holds the old contents followed by the byte |
| DConnect.FindMarker | opendap/src/main/java/opendap/dap/DConnect2.java:374-385 | the marker tests report the length of the marker ending at `pos`, or 0 for none |
| DConnect.Step | opendap/src/main/java/opendap/dap/DConnect2.java:370-385 | one iteration appends the next stream byte and reports a marker ending there |
| DConnect.ScanForMarker | opendap/src/main/java/opendap/dap/DConnect2.java:364-386 | the loop stops at the first marker, or at end of stream with no marker seen; the buffer holds the stream up to the marker's start |
| DConnect.CaptureDataDds | opendap/src/main/java/opendap/dap/DConnect2.java:364-390 | the result is an error iff the stream has no marker; otherwise it is the bytes before the first marker, and no occurrence of either tag starts earlier |

## Left out

- Network, files and streams: the network layer is not part of this model. That covers opening connections, the `file://` and URL checks in the constructor (DConnect2.java lines 159-190), the `InputStream` constructor, sessions, `toString` and `getBinaryDataInfo`. The input stream of `captureDataDDS` is a parameter holding all its bytes. `RandomAccessFile` is the `ByteCursor` class over a sequence of octets.
- End of file: when the file ends early, `RandomAccessFile.read()` returns -1 and `readFloat` throws. The model reports every such read as `EndOfFile`, so a record is only built when all its octets exist.
- `GribNumbers.int2`/`int4` and `BitReader` are not part of this model. `int2`/`int4` are modelled as sign-magnitude integers, a sign bit followed by the magnitude. `bits2SInt` is modelled the same way. After the descriptors the file is taken to advance by ceil(bits/8) octets.
- Floating point: floats are kept as their 32-bit patterns. `Float.compare(a, b) == 0` is modelled as equal `floatToIntBits`, and `referenceValue != 0.0f` as the bit pattern not being ±0. No arithmetic is done on floats.
- `captureDataDDS` decodes the captured bytes as UTF-8. The model returns the bytes, because character decoding is not modelled.
- DConnect.Need: `len * 2 + n` is unbounded, so the Java `int` overflow of a buffer beyond 1 GiB is not modelled.
- Grib2DrsEquality.EqualsSymmetric: requires well-formed records, with `orderOfSPD + 1` descriptors. Java, comparing two template 50002 records with different descriptor counts, may throw instead of answering.
- Grib2DrsEquality.EqualsSameHash: requires well-formed records, for the same reason.
- Grib2DrsEquality.SpdMatches: the Java loop walks over `this.spd` and indexes the other array. When the other array is shorter, Java throws an `ArrayIndexOutOfBoundsException`. The model answers "not equal" there. Every decoded record is well formed (`DecodedWellFormed`), so this case does not arise for records the factory builds.
- Grib2Packing.SpatialEncode: requires order 1 or 2 and at least `order` values. The template notes describe no other case. Missing values, which the notes say are skipped when choosing the dummies, are not modelled.
- Section 7 unpacking (`getBinaryDataInfo`, the data readers) and the loggers are not part of this model.
- Grib2Packing.GroupValueKind: the group reference, its width and the group width are parameters. Reading them from Section 7 is part of the unpacking this model leaves out.
- Loop splits: `captureDataDDS` is one Java loop. Here its body is split into `Put`, `FindMarker` and `Step`, and its loop sits in `ScanForMarker`. `getCompleteCE`'s first half is the `LocalParts` method. The branches and their order are unchanged.
- DConnect.DConnect2.CE and DConnect.DConnect2.URL are plain functions of the fields. The constructor's contract states what they return.
- `getCompleteCE(proj, sel)` with a null `proj` dereferences null in Java. Here the projection is a string, so that case does not exist.
