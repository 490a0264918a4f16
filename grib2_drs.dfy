/**
 * GRIB2 Section 5 (Data Representation Section): the template-specific header
 * records and the decoder that reads them from an advancing octet cursor.
 *
 * The code reads a template starting at octet 12 of Section 5 (octets 1-11 have been
 * consumed by the caller). `DrsAt` states each template's octet table with
 * absolute offsets from that position; the `New*` methods read the same fields one
 * after another from a `ByteCursor`, as the Java constructors do, and are proved
 * to agree with the table.
 */
module Grib2Drs {
  import opened Wrappers
  import opened Octets

  /** Fields of template 5.0 (simple packing), shared by templates 5.2, 5.3 and 5.40. */
  datatype SimplePacking = SimplePacking(
    referenceValue: Bits32,     // IEEE float, kept as its bit pattern
    binaryScaleFactor: int,
    decimalScaleFactor: int,
    numberOfBits: Octet,
    originalType: Octet)

  /** Fields that template 5.2 (complex packing) adds, shared by template 5.3. */
  datatype ComplexPacking = ComplexPacking(
    splittingMethod: Octet,
    missingValueManagement: Octet,
    primaryMissingValue: Bits32,
    secondaryMissingValue: Bits32,
    numberOfGroups: int,
    referenceGroupWidths: Octet,
    bitsGroupWidths: Octet,
    referenceGroupLength: int,
    lengthIncrement: Octet,
    lengthLastGroup: int,
    bitsScaledGroupLength: Octet)

  /** One constructor per concrete record class of the decoder. */
  datatype Drs =
    | Type0(simple: SimplePacking)
    | Type2(simple: SimplePacking, complex: ComplexPacking)
    | Type3(simple: SimplePacking, complex: ComplexPacking, orderSpatial: Octet, descriptorSpatial: Octet)
    | Type40(simple: SimplePacking, compressionMethod: Octet, compressionRatio: Octet, hasSignedProblem: bool)
    | Type50002(
        referenceValue: Bits32, binaryScaleFactor: int, decimalScaleFactor: int, numberOfBits: Octet,
        widthOfFirstOrderValues: Octet, p1: int, p2: int, widthOfWidth: Octet, widthOfLength: Octet,
        boustrophonic: Octet, orderOfSPD: Octet, widthOfSPD: Octet, spd: seq<int>,
        lengthOfSection6: int, section6: Octet, bitMapIndicator: Octet,
        lengthOfSection7: int, section7: Octet)

  datatype DrsError = UnsupportedDrsType(template: int) | EndOfFile

  /** The template numbers the factory accepts (Code table 5.0, plus ECMWF's local 50002). */
  const SupportedTemplates: set<int> := {0, 41, 2, 3, 40, 50002}

  // ---------------------------------------------------------------------------
  // The octet tables, with offsets relative to octet 12 of Section 5

  /** Template 5.0, octets 12-21. */
  function SimpleAt(s: seq<Octet>, p: nat): (x: SimplePacking)
    requires p + 10 <= |s|
    ensures -0x7FFF <= x.binaryScaleFactor <= 0x7FFF && -0x7FFF <= x.decimalScaleFactor <= 0x7FFF
  {
    SimplePacking(
      referenceValue := Float32At(s, p),        // octets 12-15
      binaryScaleFactor := Int2At(s, p + 4),    // octets 16-17
      decimalScaleFactor := Int2At(s, p + 6),   // octets 18-19
      numberOfBits := s[p + 8],                 // octet 20
      originalType := s[p + 9])                 // octet 21
  }

  /** Template 5.2, octets 22-47. */
  function ComplexAt(s: seq<Octet>, p: nat): (c: ComplexPacking)
    requires p + 36 <= |s|
    ensures -0x7FFF_FFFF <= c.numberOfGroups <= 0x7FFF_FFFF
    ensures -0x7FFF_FFFF <= c.referenceGroupLength <= 0x7FFF_FFFF
    ensures -0x7FFF_FFFF <= c.lengthLastGroup <= 0x7FFF_FFFF
  {
    ComplexPacking(
      splittingMethod := s[p + 10],               // octet 22
      missingValueManagement := s[p + 11],        // octet 23
      primaryMissingValue := Float32At(s, p + 12),   // octets 24-27
      secondaryMissingValue := Float32At(s, p + 16), // octets 28-31
      numberOfGroups := Int4At(s, p + 20),        // octets 32-35
      referenceGroupWidths := s[p + 24],          // octet 36
      bitsGroupWidths := s[p + 25],               // octet 37
      referenceGroupLength := Int4At(s, p + 26),  // octets 38-41
      lengthIncrement := s[p + 30],               // octet 42
      lengthLastGroup := Int4At(s, p + 31),       // octets 43-46
      bitsScaledGroupLength := s[p + 35])         // octet 47
  }

  /** The template 5.0 fields depend only on their own ten octets, wherever they lie. */
  lemma SimpleAtLocal(s: seq<Octet>, p: nat, t: seq<Octet>, q: nat)
    requires p + 10 <= |s| && q + 10 <= |t| && s[p..p + 10] == t[q..q + 10]
    ensures SimpleAt(s, p) == SimpleAt(t, q)
  {
    var u := s[p..p + 10];
    assert forall k :: 0 <= k < 10 ==> u[k] == s[p + k] && u[k] == t[q + k];
  }

  /** The template 5.2 fields depend only on their own 36 octets, wherever they lie. */
  lemma ComplexAtLocal(s: seq<Octet>, p: nat, t: seq<Octet>, q: nat)
    requires p + 36 <= |s| && q + 36 <= |t| && s[p..p + 36] == t[q..q + 36]
    ensures ComplexAt(s, p) == ComplexAt(t, q)
  {
    var u := s[p..p + 36];
    assert forall k :: 10 <= k < 36 ==> u[k] == s[p + k] && u[k] == t[q + k];
  }

  /**
   * Octets occupied by the spd bit fields of template 50002: `order + 1` fields of
   * `width` bits, rounded up to whole octets. This is an assumption about how far the
   * bit reader leaves the file pointer; the bit reader is not part of this model.
   */
  function SpdOctets(order: nat, width: nat): nat
  {
    ((order + 1) * width + 7) / 8
  }

  lemma MulMonotone(k: nat, order: nat, w: nat)
    requires k <= order
    ensures k * w + w <= (order + 1) * w
  {
    assert (order + 1) * w == order * w + w;
    assert k * w <= order * w;
  }

  /** Entry `k` of the spd array whose bit fields start at bit `b`. */
  function SpdEntry(s: seq<Octet>, b: nat, order: nat, w: nat, k: nat): int
    requires k <= order && b + (order + 1) * w <= 8 * |s|
  {
    MulMonotone(k, order, w);
    if k < order then JavaInt(UBits(s, b + k * w, w)) else JavaInt(SBits(s, b + k * w, w))
  }

  /** The spd array: `order` unsigned fields followed by one signed field, each `w` bits wide. */
  function SpdAt(s: seq<Octet>, b: nat, order: nat, w: nat): (spd: seq<int>)
    requires b + (order + 1) * w <= 8 * |s|
    ensures |spd| == order + 1
  {
    seq(order + 1, k requires 0 <= k <= order => SpdEntry(s, b, order, w, k))
  }

  function Type0At(s: seq<Octet>, p: nat): Result<(Drs, nat), DrsError>
  {
    if p + 10 <= |s| then Ok((Type0(SimpleAt(s, p)), 10)) else Err(EndOfFile)
  }

  function Type2At(s: seq<Octet>, p: nat): Result<(Drs, nat), DrsError>
  {
    if p + 36 <= |s| then Ok((Type2(SimpleAt(s, p), ComplexAt(s, p)), 36)) else Err(EndOfFile)
  }

  /** Template 5.3: template 5.2 followed by octets 48 and 49. */
  function Type3At(s: seq<Octet>, p: nat): Result<(Drs, nat), DrsError>
  {
    if p + 38 <= |s| then Ok((Type3(SimpleAt(s, p), ComplexAt(s, p), s[p + 36], s[p + 37]), 38))
    else Err(EndOfFile)
  }

  /** Template 5.40: template 5.0 followed by the compression method and ratio. */
  function Type40At(s: seq<Octet>, p: nat): Result<(Drs, nat), DrsError>
  {
    if p + 12 <= |s| then Ok((Type40(SimpleAt(s, p), s[p + 10], s[p + 11], false), 12))
    else Err(EndOfFile)
  }

  /** The last octet template 5.50002 reads lies within `s`. */
  predicate Type50002Fits(s: seq<Octet>, p: nat)
  {
    p + 23 <= |s| && p + 34 + SpdOctets(s[p + 21], s[p + 22]) <= |s|
  }

  /** ECMWF local template 5.50002 (second-order packing), octets counted from octet 12. */
  function Type50002Record(s: seq<Octet>, p: nat): Drs
    requires Type50002Fits(s, p)
  {
    var order: nat, w: nat := s[p + 21], s[p + 22];
    var q := p + 23 + SpdOctets(order, w);
    CeilDiv8(p + 23, (order + 1) * w, |s|);
    Type50002(
      referenceValue := Float32At(s, p),        // octets 12-15
      binaryScaleFactor := Int2At(s, p + 4),    // octets 16-17
      decimalScaleFactor := Int2At(s, p + 6),   // octets 18-19
      numberOfBits := s[p + 8],                 // octet 20
      widthOfFirstOrderValues := s[p + 9],      // octet 21
      p1 := Int4At(s, p + 10),                  // octets 22-25
      p2 := Int4At(s, p + 14),                  // octets 26-29
      widthOfWidth := s[p + 18],                // octet 30
      widthOfLength := s[p + 19],               // octet 31
      boustrophonic := s[p + 20],               // octet 32
      orderOfSPD := order,                      // octet 33
      widthOfSPD := w,                          // octet 34
      spd := SpdAt(s, 8 * (p + 23), order, w),  // from octet 35, bit fields
      lengthOfSection6 := Int4At(s, q),
      section6 := s[q + 4],
      bitMapIndicator := s[q + 5],
      lengthOfSection7 := Int4At(s, q + 6),
      section7 := s[q + 10])
  }

  /** Proof step of `NewType50002`: a record whose fields hold the octet-table values is the table's record. */
  lemma Type50002RecordOf(s: seq<Octet>, p: nat, d: Drs)
    requires Type50002Fits(s, p)
    requires d.Type50002?
    requires d.referenceValue == Float32At(s, p) && d.binaryScaleFactor == Int2At(s, p + 4)
    requires d.decimalScaleFactor == Int2At(s, p + 6) && d.numberOfBits == s[p + 8]
    requires d.widthOfFirstOrderValues == s[p + 9] && d.p1 == Int4At(s, p + 10) && d.p2 == Int4At(s, p + 14)
    requires d.widthOfWidth == s[p + 18] && d.widthOfLength == s[p + 19] && d.boustrophonic == s[p + 20]
    requires d.orderOfSPD == s[p + 21] && d.widthOfSPD == s[p + 22]
    requires 8 * (p + 23) + (d.orderOfSPD + 1) * d.widthOfSPD <= 8 * |s|
    requires d.spd == SpdAt(s, 8 * (p + 23), d.orderOfSPD, d.widthOfSPD)
    requires var q := p + 23 + SpdOctets(d.orderOfSPD, d.widthOfSPD);
      d.lengthOfSection6 == Int4At(s, q) && d.section6 == s[q + 4] && d.bitMapIndicator == s[q + 5] &&
      d.lengthOfSection7 == Int4At(s, q + 6) && d.section7 == s[q + 10]
    ensures d == Type50002Record(s, p)
  {
  }

  function Type50002At(s: seq<Octet>, p: nat): Result<(Drs, nat), DrsError>
  {
    if Type50002Fits(s, p) then Ok((Type50002Record(s, p), 34 + SpdOctets(s[p + 21], s[p + 22])))
    else Err(EndOfFile)
  }

  lemma CeilDiv8(a: nat, t: nat, n: nat)
    ensures 8 * a + t <= 8 * n <==> a + (t + 7) / 8 <= n
  {
  }

  /** Octets a record of each kind occupies in Section 5, counted from octet 12. */
  function OctetsConsumed(d: Drs): nat
  {
    match d
    case Type0(_) => 10
    case Type2(_, _) => 36
    case Type3(_, _, _, _) => 38
    case Type40(_, _, _, _) => 12
    case Type50002(_, _, _, _, _, _, _, _, _, _, _, _, _, _, _, _, _, _) =>
      34 + SpdOctets(d.orderOfSPD, d.widthOfSPD)
  }

  /** The octets template `template` occupies from `p` all lie within `s`. */
  predicate TemplateFits(template: int, s: seq<Octet>, p: nat)
  {
    if template == 0 || template == 41 then p + 10 <= |s|
    else if template == 2 then p + 36 <= |s|
    else if template == 3 then p + 38 <= |s|
    else if template == 40 then p + 12 <= |s|
    else Type50002Fits(s, p)
  }

  /**
   * The factory's dispatch on the template number, as a pure function of the octets:
   * the record and the number of octets it occupies, or the error.
   */
  function DrsAt(template: int, s: seq<Octet>, p: nat): (r: Result<(Drs, nat), DrsError>)
    ensures r.Ok? <==> template in SupportedTemplates && TemplateFits(template, s, p)
    ensures r.Err? ==> r.error == if template in SupportedTemplates then EndOfFile else UnsupportedDrsType(template)
    ensures r.Ok? ==> p + r.value.1 <= |s| && r.value.1 == OctetsConsumed(r.value.0)
    ensures r.Ok? ==> (r.value.0.Type0? <==> template in {0, 41})
    ensures r.Ok? ==> (r.value.0.Type2? <==> template == 2)
    ensures r.Ok? ==> (r.value.0.Type3? <==> template == 3)
    ensures r.Ok? ==> (r.value.0.Type40? <==> template == 40)
    ensures r.Ok? ==> (r.value.0.Type50002? <==> template == 50002)
  {
    if template == 0 || template == 41 then Type0At(s, p)
    else if template == 2 then Type2At(s, p)
    else if template == 3 then Type3At(s, p)
    else if template == 40 then Type40At(s, p)
    else if template == 50002 then Type50002At(s, p)
    else Err(UnsupportedDrsType(template))
  }

  /** `getNGroups`: the number of groups of complex packing, 1 for every other record. */
  function GetNGroups(d: Drs): (n: int)
    ensures d.Type2? || d.Type3? ==> n == d.complex.numberOfGroups
    ensures !(d.Type2? || d.Type3?) ==> n == 1
  {
    match d
    case Type2(_, c) => c.numberOfGroups
    case Type3(_, c, _, _) => c.numberOfGroups
    case _ => 1
  }

  // ---------------------------------------------------------------------------
  // Properties of the octet tables

  /** Templates 5.0 and 5.41 decode identically: both become a `Type0`. */
  lemma Template41IsTemplate0(s: seq<Octet>, p: nat)
    ensures DrsAt(41, s, p) == DrsAt(0, s, p)
    ensures DrsAt(41, s, p).Ok? ==> DrsAt(41, s, p).value.0.Type0?
  {
  }

  /** Every template number outside the supported set is rejected, whatever the octets. */
  lemma UnsupportedRejected(template: int, s: seq<Octet>, p: nat)
    requires template !in SupportedTemplates
    ensures DrsAt(template, s, p) == Err(UnsupportedDrsType(template))
  {
  }

  /**
   * Template 5.2 begins with exactly the fields of template 5.0 read from the same octets,
   * and occupies 26 octets more.
   */
  lemma Type2ExtendsType0(s: seq<Octet>, p: nat)
    ensures DrsAt(2, s, p).Ok? ==> DrsAt(0, s, p).Ok?
    ensures DrsAt(2, s, p).Ok? ==>
      DrsAt(2, s, p).value.0.simple == DrsAt(0, s, p).value.0.simple &&
      DrsAt(2, s, p).value.1 == DrsAt(0, s, p).value.1 + 26
  {
  }

  /** Template 5.3 is template 5.2 followed by two one-octet fields. */
  lemma Type3ExtendsType2(s: seq<Octet>, p: nat)
    ensures DrsAt(3, s, p).Ok? ==> DrsAt(2, s, p).Ok?
    ensures DrsAt(3, s, p).Ok? ==>
      var (d3, n3) := DrsAt(3, s, p).value;
      var (d2, n2) := DrsAt(2, s, p).value;
      d3.simple == d2.simple && d3.complex == d2.complex && n3 == n2 + 2 &&
      d3.orderSpatial == s[p + n2] && d3.descriptorSpatial == s[p + n2 + 1]
  {
  }

  /**
   * Template 5.40 is template 5.0 followed by two one-octet fields; decoding never sets
   * `hasSignedProblem`.
   */
  lemma Type40ExtendsType0(s: seq<Octet>, p: nat)
    ensures DrsAt(40, s, p).Ok? ==> DrsAt(0, s, p).Ok?
    ensures DrsAt(40, s, p).Ok? ==>
      var (d40, n40) := DrsAt(40, s, p).value;
      var (d0, n0) := DrsAt(0, s, p).value;
      d40.simple == d0.simple && n40 == n0 + 2 && !d40.hasSignedProblem &&
      d40.compressionMethod == s[p + n0] && d40.compressionRatio == s[p + n0 + 1]
  {
  }

  /**
   * The spd array of template 50002 (`SpdAt`, which `Type50002Record` places at octet 35):
   * `order + 1` entries, the first `order` read as unsigned and the last as signed
   * `w`-bit fields packed one after another from bit `b`.
   */
  lemma SpdLayout(s: seq<Octet>, b: nat, order: nat, w: nat)
    requires b + (order + 1) * w <= 8 * |s|
    ensures |SpdAt(s, b, order, w)| == order + 1
    ensures forall k :: 0 <= k < order ==>
      (MulMonotone(k, order, w); SpdAt(s, b, order, w)[k] == JavaInt(UBits(s, b + k * w, w)))
    ensures (MulMonotone(order, order, w);
      SpdAt(s, b, order, w)[order] == JavaInt(SBits(s, b + order * w, w)))
  {
    var spd := SpdAt(s, b, order, w);
    forall k | 0 <= k < order
      ensures (MulMonotone(k, order, w); spd[k] == JavaInt(UBits(s, b + k * w, w)))
    {
      assert spd[k] == SpdEntry(s, b, order, w, k);
    }
    assert spd[order] == SpdEntry(s, b, order, w, order);
  }

  /** `getNGroups` of a decoded record: octets 32-35 for templates 5.2 and 5.3, 1 otherwise. */
  lemma NGroupsOfDecoded(template: int, s: seq<Octet>, p: nat)
    requires DrsAt(template, s, p).Ok?
    ensures GetNGroups(DrsAt(template, s, p).value.0) ==
      if template == 2 || template == 3 then Int4At(s, p + 20) else 1
  {
  }

  // ---------------------------------------------------------------------------
  // The byte source and the constructors

  /** The random-access file the constructors read from: fixed contents and a file pointer. */
  class ByteCursor {
    const data: seq<Octet>
    var pos: nat

    constructor (data: seq<Octet>, pos: nat)
      ensures this.data == data && this.pos == pos
    {
      this.data := data;
      this.pos := pos;
    }

    /**
     * Where a read of several octets that runs out leaves the position: each octet that
     * was still there has been consumed.
     */
    function Exhausted(p: nat): nat
      reads this
    {
      if p < |data| then |data| else p
    }

    /** `read()`: one octet. */
    method Read() returns (r: Result<Octet, DrsError>)
      modifies this
      ensures r.Ok? <==> old(pos) < |data|
      ensures r.Ok? ==> r.value == data[old(pos)] && pos == old(pos) + 1
      ensures r.Err? ==> r.error == EndOfFile && pos == old(pos)
    {
      if pos >= |data| {
        return Err(EndOfFile);
      }
      r := Ok(data[pos]);
      pos := pos + 1;
    }

    /** `readFloat()`: four octets in network order, kept as a bit pattern. */
    method ReadFloat() returns (r: Result<Bits32, DrsError>)
      modifies this
      ensures r.Ok? <==> old(pos) + 4 <= |data|
      ensures r.Ok? ==> r.value == Float32At(data, old(pos)) && pos == old(pos) + 4
      ensures r.Err? ==> r.error == EndOfFile && pos == Exhausted(old(pos))
    {
      var a :- Read();
      var b :- Read();
      var c :- Read();
      var d :- Read();
      return Ok(((a as int * 256 + b) * 256 + c) * 256 + d);
    }

    /** `GribNumbers.int2(raf)`: a 2-octet sign-and-magnitude integer. */
    method Int2() returns (r: Result<int, DrsError>)
      modifies this
      ensures r.Ok? <==> old(pos) + 2 <= |data|
      ensures r.Ok? ==> r.value == Int2At(data, old(pos)) && pos == old(pos) + 2
      ensures r.Err? ==> r.error == EndOfFile && pos == Exhausted(old(pos))
    {
      var a :- Read();
      var b :- Read();
      var magnitude := (a as int % 128) * 256 + b;
      return Ok(if a >= 128 then -magnitude else magnitude);
    }

    /** `GribNumbers.int4(raf)`: a 4-octet sign-and-magnitude integer. */
    method Int4() returns (r: Result<int, DrsError>)
      modifies this
      ensures r.Ok? <==> old(pos) + 4 <= |data|
      ensures r.Ok? ==> r.value == Int4At(data, old(pos)) && pos == old(pos) + 4
      ensures r.Err? ==> r.error == EndOfFile && pos == Exhausted(old(pos))
    {
      var a :- Read();
      var b :- Read();
      var c :- Read();
      var d :- Read();
      var magnitude := (((a as int % 128) * 256 + b) * 256 + c) * 256 + d;
      return Ok(if a >= 128 then -magnitude else magnitude);
    }
  }

  /** The outcome of a constructor agrees with the octet table and moved the file pointer by the octets it occupies. */
  ghost predicate Parsed(spec: Result<(Drs, nat), DrsError>, r: Result<Drs, DrsError>, before: nat, after: nat)
  {
    match spec
    case Ok(dn) => r == Ok(dn.0) && after == before + dn.1
    case Err(e) => r == Err(e)
  }

  /** `Type0(raf)`. */
  method NewType0(raf: ByteCursor) returns (r: Result<Drs, DrsError>)
    modifies raf
    ensures r.Ok? <==> old(raf.pos) + 10 <= |raf.data|
    ensures r.Ok? ==> r.value == Type0(SimpleAt(raf.data, old(raf.pos))) && raf.pos == old(raf.pos) + 10
    ensures r.Err? ==> r.error == EndOfFile
  {
    var referenceValue :- raf.ReadFloat();
    var binaryScaleFactor :- raf.Int2();
    var decimalScaleFactor :- raf.Int2();
    var numberOfBits :- raf.Read();
    var originalType :- raf.Read();
    return Ok(Type0(SimplePacking(referenceValue, binaryScaleFactor, decimalScaleFactor, numberOfBits, originalType)));
  }

  /** The twelve reads that open `Type50002(raf)`: octets 12 to 34 of Section 5. */
  method ReadHead(raf: ByteCursor)
    returns (r: Result<(Bits32, int, int, Octet, Octet, int, int, Octet, Octet, Octet, Octet, Octet), DrsError>)
    modifies raf
    ensures r.Ok? <==> old(raf.pos) + 23 <= |raf.data|
    ensures r.Ok? ==> raf.pos == old(raf.pos) + 23
    ensures r.Ok? ==> var s, p := raf.data, old(raf.pos);
      r.value == (Float32At(s, p), Int2At(s, p + 4), Int2At(s, p + 6), s[p + 8], s[p + 9],
                  Int4At(s, p + 10), Int4At(s, p + 14), s[p + 18], s[p + 19], s[p + 20],
                  s[p + 21], s[p + 22])
    ensures r.Err? ==> r.error == EndOfFile
  {
    var referenceValue :- raf.ReadFloat();
    var binaryScaleFactor :- raf.Int2();
    var decimalScaleFactor :- raf.Int2();
    var numberOfBits :- raf.Read();
    var widthOfFirstOrderValues :- raf.Read();
    var p1 :- raf.Int4();
    var p2 :- raf.Int4();
    var widthOfWidth :- raf.Read();
    var widthOfLength :- raf.Read();
    var boustrophonic :- raf.Read();
    var orderOfSPD :- raf.Read();
    var widthOfSPD :- raf.Read();
    return Ok((referenceValue, binaryScaleFactor, decimalScaleFactor, numberOfBits,
      widthOfFirstOrderValues, p1, p2, widthOfWidth, widthOfLength,
      boustrophonic, orderOfSPD, widthOfSPD));
  }

  /** `Type2(raf)`: the `Type0` fields, then the complex-packing fields. */
  method NewType2(raf: ByteCursor) returns (r: Result<Drs, DrsError>)
    modifies raf
    ensures r.Ok? <==> old(raf.pos) + 36 <= |raf.data|
    ensures r.Ok? ==> r.value == Type2(SimpleAt(raf.data, old(raf.pos)), ComplexAt(raf.data, old(raf.pos))) && raf.pos == old(raf.pos) + 36
    ensures r.Err? ==> r.error == EndOfFile
  {
    var super :- NewType0(raf);
    var splittingMethod :- raf.Read();
    var missingValueManagement :- raf.Read();
    var primaryMissingValue :- raf.ReadFloat();
    var secondaryMissingValue :- raf.ReadFloat();
    var numberOfGroups :- raf.Int4();
    var referenceGroupWidths :- raf.Read();
    var bitsGroupWidths :- raf.Read();
    var referenceGroupLength :- raf.Int4();
    var lengthIncrement :- raf.Read();
    var lengthLastGroup :- raf.Int4();
    var bitsScaledGroupLength :- raf.Read();
    return Ok(Type2(super.simple, ComplexPacking(
      splittingMethod, missingValueManagement, primaryMissingValue, secondaryMissingValue,
      numberOfGroups, referenceGroupWidths, bitsGroupWidths, referenceGroupLength,
      lengthIncrement, lengthLastGroup, bitsScaledGroupLength)));
  }

  /** `Type3(raf)`: the `Type2` fields, then the order and descriptor octets of spatial differencing. */
  method NewType3(raf: ByteCursor) returns (r: Result<Drs, DrsError>)
    modifies raf
    ensures r.Ok? <==> old(raf.pos) + 38 <= |raf.data|
    ensures r.Ok? ==> r.value == Type3(SimpleAt(raf.data, old(raf.pos)), ComplexAt(raf.data, old(raf.pos)), raf.data[old(raf.pos) + 36], raf.data[old(raf.pos) + 37]) && raf.pos == old(raf.pos) + 38
    ensures r.Err? ==> r.error == EndOfFile
  {
    var super :- NewType2(raf);
    var orderSpatial :- raf.Read();
    var descriptorSpatial :- raf.Read();
    return Ok(Type3(super.simple, super.complex, orderSpatial, descriptorSpatial));
  }

  /** `Type40(raf)`: the `Type0` fields, then compression method and ratio; `hasSignedProblem` keeps its default. */
  method NewType40(raf: ByteCursor) returns (r: Result<Drs, DrsError>)
    modifies raf
    ensures r.Ok? <==> old(raf.pos) + 12 <= |raf.data|
    ensures r.Ok? ==> r.value == Type40(SimpleAt(raf.data, old(raf.pos)), raf.data[old(raf.pos) + 10], raf.data[old(raf.pos) + 11], false) && raf.pos == old(raf.pos) + 12
    ensures r.Err? ==> r.error == EndOfFile
  {
    var super :- NewType0(raf);
    var compressionMethod :- raf.Read();
    var compressionRatio :- raf.Read();
    return Ok(Type40(super.simple, compressionMethod, compressionRatio, false));
  }

  /** `Type50002(raf)`: ECMWF second-order packing, with the spd bit fields read in a loop. */
  method NewType50002(raf: ByteCursor) returns (r: Result<Drs, DrsError>)
    modifies raf
    ensures r.Ok? <==> Type50002Fits(raf.data, old(raf.pos))
    ensures r.Ok? ==> r.value == Type50002Record(raf.data, old(raf.pos))
    ensures r.Ok? ==> raf.pos == old(raf.pos) + OctetsConsumed(r.value)
    ensures r.Err? ==> r.error == EndOfFile
  {
    ghost var p := raf.pos;
    var head :- ReadHead(raf);
    var (referenceValue, binaryScaleFactor, decimalScaleFactor, numberOfBits,
      widthOfFirstOrderValues, p1, p2, widthOfWidth, widthOfLength,
      boustrophonic, orderOfSPD, widthOfSPD) := head;
    assert raf.pos == p + 23 <= |raf.data|;
    assert orderOfSPD == raf.data[p + 21] && widthOfSPD == raf.data[p + 22];
    assert Type50002Fits(raf.data, p) <==> p + 34 + SpdOctets(orderOfSPD, widthOfSPD) <= |raf.data|;
    var spd :- ReadSpd(raf, orderOfSPD, widthOfSPD);
    ghost var q := raf.pos;
    assert q == p + 23 + SpdOctets(orderOfSPD, widthOfSPD);
    var trailer :- ReadTrailer(raf);
    var (lengthOfSection6, section6, bitMapIndicator, lengthOfSection7, section7) := trailer;
    assert raf.pos == q + 11;
    var d := Type50002(
      referenceValue, binaryScaleFactor, decimalScaleFactor, numberOfBits,
      widthOfFirstOrderValues, p1, p2, widthOfWidth, widthOfLength,
      boustrophonic, orderOfSPD, widthOfSPD, spd,
      lengthOfSection6, section6, bitMapIndicator, lengthOfSection7, section7);
    ghost var s := raf.data;
    assert referenceValue == Float32At(s, p) && binaryScaleFactor == Int2At(s, p + 4);
    assert decimalScaleFactor == Int2At(s, p + 6) && numberOfBits == s[p + 8];
    assert widthOfFirstOrderValues == s[p + 9] && p1 == Int4At(s, p + 10) && p2 == Int4At(s, p + 14);
    assert widthOfWidth == s[p + 18] && widthOfLength == s[p + 19] && boustrophonic == s[p + 20];
    assert lengthOfSection6 == Int4At(s, q) && section6 == s[q + 4] && bitMapIndicator == s[q + 5];
    assert lengthOfSection7 == Int4At(s, q + 6) && section7 == s[q + 10];
    Type50002RecordOf(s, p, d);
    return Ok(d);
  }

  /**
   * The five reads that end `Type50002(raf)`: the length and number octets that follow,
   * which the code takes to be the headers of Sections 6 and 7.
   */
  method ReadTrailer(raf: ByteCursor) returns (r: Result<(int, Octet, Octet, int, Octet), DrsError>)
    modifies raf
    ensures r.Ok? <==> old(raf.pos) + 11 <= |raf.data|
    ensures r.Ok? ==> raf.pos == old(raf.pos) + 11
    ensures r.Ok? ==> var s, q := raf.data, old(raf.pos);
      r.value == (Int4At(s, q), s[q + 4], s[q + 5], Int4At(s, q + 6), s[q + 10])
    ensures r.Err? ==> r.error == EndOfFile
  {
    var lengthOfSection6 :- raf.Int4();
    var section6 :- raf.Read();
    var bitMapIndicator :- raf.Read();
    var lengthOfSection7 :- raf.Int4();
    var section7 :- raf.Read();
    return Ok((lengthOfSection6, section6, bitMapIndicator, lengthOfSection7, section7));
  }

  /**
   * The spd loop of `Type50002(raf)`: a bit reader is started at the file pointer, reads
   * `order` unsigned and then one signed field of `width` bits, each cast to `int`.
   */
  method ReadSpd(raf: ByteCursor, order: nat, width: nat) returns (r: Result<seq<int>, DrsError>)
    modifies raf
    ensures r.Ok? <==> old(raf.pos) + SpdOctets(order, width) <= |raf.data|
    ensures r.Ok? ==> 8 * old(raf.pos) + (order + 1) * width <= 8 * |raf.data|
    ensures r.Ok? ==> r.value == SpdAt(raf.data, 8 * old(raf.pos), order, width)
    ensures r.Ok? ==> raf.pos == old(raf.pos) + SpdOctets(order, width)
    ensures r.Err? ==> r.error == EndOfFile
  {
    var octets := SpdOctets(order, width);
    var p0 := raf.pos;
    // the bit reader starts at the current file pointer
    var start := 8 * p0;
    CeilDiv8(p0, (order + 1) * width, |raf.data|);
    if start + (order + 1) * width > 8 * |raf.data| {
      return Err(EndOfFile);
    }
    var spd := ReadBitFields(raf.data, start, order, width);
    // assumed: the bit reader leaves the file pointer after the last octet it touched
    raf.pos := p0 + octets;
    return Ok(spd);
  }

  /** The loop filling `spd`: `order` unsigned fields, then one signed field, `width` bits each from bit `start`. */
  method ReadBitFields(data: seq<Octet>, start: nat, order: nat, width: nat) returns (spd: seq<int>)
    requires start + (order + 1) * width <= 8 * |data|
    ensures spd == SpdAt(data, start, order, width)
  {
    var a := new int[order + 1];
    var bitPos := start;
    for i := 0 to order
      invariant bitPos == start + i * width
      invariant forall k :: 0 <= k < i ==> a[k] == SpdEntry(data, start, order, width, k)
    {
      MulMonotone(i, order, width);
      a[i] := JavaInt(UBits(data, bitPos, width));
      assert a[i] == SpdEntry(data, start, order, width, i);
      assert (i + 1) * width == i * width + width;
      bitPos := bitPos + width;
    }
    MulMonotone(order, order, width);
    a[order] := JavaInt(SBits(data, bitPos, width));
    assert forall k :: 0 <= k <= order ==> a[k] == SpdEntry(data, start, order, width, k);
    spd := a[..];
  }

  /**
   * `factory`: dispatch on the template number. An unsupported template reads nothing
   * and builds no record.
   */
  method Factory(template: int, raf: ByteCursor) returns (r: Result<Drs, DrsError>)
    modifies raf
    ensures Parsed(DrsAt(template, raf.data, old(raf.pos)), r, old(raf.pos), raf.pos)
    ensures r == Err(UnsupportedDrsType(template)) ==> raf.pos == old(raf.pos)
  {
    if template == 0 || template == 41 {
      r := NewType0(raf);
    } else if template == 2 {
      r := NewType2(raf);
    } else if template == 3 {
      r := NewType3(raf);
    } else if template == 40 {
      r := NewType40(raf);
    } else if template == 50002 {
      r := NewType50002(raf);
    } else {
      r := Err(UnsupportedDrsType(template));
    }
  }
}
