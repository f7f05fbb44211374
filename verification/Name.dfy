/** The 64-bit NAME of a controller application and the order address arbitration rests on. */
module Name {
  import opened Common
  import opened Wire

  /** The fields of a NAME, most significant first. */
  datatype Fields = Fields(
    arbitrary: int, industryGroup: int, systemInstance: int, system: int, reserved: int,
    deviceFunction: int, functionInstance: int, ecuInstance: int, manufacturer: int, identity: int)

  /** The checks of the constructor. */
  predicate Accepted(f: Fields) {
    && 0 <= f.arbitrary <= 1 && 0 <= f.industryGroup < 8 && 0 <= f.systemInstance < 16 && 0 <= f.system < 128
    && 0 <= f.deviceFunction < 256 && 0 <= f.functionInstance < 32 && 0 <= f.ecuInstance < 8
    && 0 <= f.manufacturer < 2048 && 0 <= f.identity < 0x20_0000
  }

  predicate Fits(f: Fields) {
    Accepted(f) && 0 <= f.reserved < 2
  }

  /** The `value` getter. */
  function Value(f: Fields): int {
    f.identity + f.manufacturer * 0x20_0000 + f.ecuInstance * 0x1_0000_0000 + f.functionInstance * 0x8_0000_0000
    + f.deviceFunction * 0x100_0000_0000 + f.reserved * 0x1_0000_0000_0000 + f.system * 0x2_0000_0000_0000
    + f.systemInstance * 0x100_0000_0000_0000 + f.industryGroup * 0x1000_0000_0000_0000
    + f.arbitrary * 0x8000_0000_0000_0000
  }

  /** The `value` setter: shifts and masks. */
  function FieldsOf(v: int): (f: Fields)
    ensures Fits(f)
  {
    Fields(v / 0x8000_0000_0000_0000 % 2, v / 0x1000_0000_0000_0000 % 8, v / 0x100_0000_0000_0000 % 16,
           v / 0x2_0000_0000_0000 % 128, v / 0x1_0000_0000_0000 % 2, v / 0x100_0000_0000 % 256,
           v / 0x8_0000_0000 % 32, v / 0x1_0000_0000 % 8, v / 0x20_0000 % 2048, v % 0x20_0000)
  }

  function Bit48(v: int): int {
    v / 0x1_0000_0000_0000 % 2
  }

  // ---- positional arithmetic ----

  /** What is left of the fields in front of the identity, manufacturer, ... */
  function Above(f: Fields, level: nat): int
    requires level <= 9
    decreases 9 - level
  {
    if level == 9 then f.arbitrary
    else if level == 8 then f.arbitrary * 8 + f.industryGroup
    else if level == 7 then Above(f, 8) * 16 + f.systemInstance
    else if level == 6 then Above(f, 7) * 128 + f.system
    else if level == 5 then Above(f, 6) * 2 + f.reserved
    else if level == 4 then Above(f, 5) * 256 + f.deviceFunction
    else if level == 3 then Above(f, 4) * 32 + f.functionInstance
    else if level == 2 then Above(f, 3) * 8 + f.ecuInstance
    else if level == 1 then Above(f, 2) * 2048 + f.manufacturer
    else Above(f, 1) * 0x20_0000 + f.identity
  }

  lemma AboveIsShift(f: Fields)
    requires Fits(f)
    ensures Above(f, 0) == Value(f)
  {
    var a8 := Above(f, 8);
    var a7 := a8 * 16 + f.systemInstance;
    var a6 := a7 * 128 + f.system;
    var a5 := a6 * 2 + f.reserved;
    var a4 := a5 * 256 + f.deviceFunction;
    var a3 := a4 * 32 + f.functionInstance;
    var a2 := a3 * 8 + f.ecuInstance;
    var a1 := a2 * 2048 + f.manufacturer;
    assert Above(f, 7) == a7 && Above(f, 6) == a6;
    assert Above(f, 5) == a5 && Above(f, 4) == a4;
    assert Above(f, 3) == a3 && Above(f, 2) == a2 && Above(f, 1) == a1;
  }

  /** Two shifts are one. */
  lemma DivDiv(x: int, a: int, b: int)
    requires 0 < a && 0 < b
    ensures 0 < a * b && x / (a * b) == x / a / b
  {
    var q, r := x / a, x % a;
    var q2, r2 := q / b, q % b;
    Regroup(a, b, q2, r2);
    SmallRemainder(a, b, r2, r);
    DivUnique(x, a * b, q2, a * r2 + r);
  }

  lemma Regroup(a: int, b: int, x: int, y: int)
    ensures a * (b * x + y) == (a * b) * x + a * y
  {
    assert a * (b * x + y) == a * (b * x) + a * y;
    assert a * (b * x) == (a * b) * x;
  }

  lemma SmallRemainder(a: int, b: int, x: int, y: int)
    requires 0 <= x < b && 0 <= y < a
    ensures 0 <= a * x + y < a * b
  {
    MulDiff(x, b, a);
  }

  /** The quotients of the setter, each from the one before. */
  lemma Shifts(v: int)
    ensures v / 0x1_0000_0000 == v / 0x20_0000 / 2048
    ensures v / 0x8_0000_0000 == v / 0x1_0000_0000 / 8
    ensures v / 0x100_0000_0000 == v / 0x8_0000_0000 / 32
    ensures v / 0x1_0000_0000_0000 == v / 0x100_0000_0000 / 256
    ensures v / 0x2_0000_0000_0000 == v / 0x1_0000_0000_0000 / 2
  {
    DivDiv(v, 0x20_0000, 2048);
    DivDiv(v, 0x1_0000_0000, 8);
    DivDiv(v, 0x8_0000_0000, 32);
    DivDiv(v, 0x100_0000_0000, 256);
    DivDiv(v, 0x1_0000_0000_0000, 2);
  }

  lemma HighShifts(v: int)
    ensures v / 0x100_0000_0000_0000 == v / 0x2_0000_0000_0000 / 128
    ensures v / 0x1000_0000_0000_0000 == v / 0x100_0000_0000_0000 / 16
    ensures v / 0x8000_0000_0000_0000 == v / 0x1000_0000_0000_0000 / 8
  {
    DivDiv(v, 0x2_0000_0000_0000, 128);
    DivDiv(v, 0x100_0000_0000_0000, 16);
    DivDiv(v, 0x1000_0000_0000_0000, 8);
  }

  /** Taking a NAME value apart and putting it together again. */
  lemma ValueOfFields(v: int)
    requires 0 <= v < 0x1_0000_0000_0000_0000
    ensures Value(FieldsOf(v)) == v
  {
    Shifts(v);
    HighShifts(v);
    var f := FieldsOf(v);
    var q1, q2, q3, q4 := v / 0x20_0000, v / 0x1_0000_0000, v / 0x8_0000_0000, v / 0x100_0000_0000;
    var q5, q6, q7 := v / 0x1_0000_0000_0000, v / 0x2_0000_0000_0000, v / 0x100_0000_0000_0000;
    var q8, q9 := v / 0x1000_0000_0000_0000, v / 0x8000_0000_0000_0000;
    assert v == q1 * 0x20_0000 + f.identity;
    assert q1 == q2 * 2048 + f.manufacturer;
    assert q2 == q3 * 8 + f.ecuInstance;
    assert q3 == q4 * 32 + f.functionInstance;
    assert q4 == q5 * 256 + f.deviceFunction;
    assert q5 == q6 * 2 + f.reserved;
    assert q6 == q7 * 128 + f.system;
    assert q7 == q8 * 16 + f.systemInstance;
    assert q8 == q9 * 8 + f.industryGroup;
    assert 0 <= q9 < 2 && q9 == f.arbitrary;
  }

  predicate LexLess(f: Fields, g: Fields) {
    || f.arbitrary < g.arbitrary
    || (f.arbitrary == g.arbitrary && (
        || f.industryGroup < g.industryGroup
        || (f.industryGroup == g.industryGroup && (
            || f.systemInstance < g.systemInstance
            || (f.systemInstance == g.systemInstance && (
                || f.system < g.system
                || (f.system == g.system && LexLessLow(f, g))))))))
  }

  /** The fields from the reserved bit down. */
  predicate LexLessLow(f: Fields, g: Fields) {
    || f.reserved < g.reserved
    || (f.reserved == g.reserved && (
        || f.deviceFunction < g.deviceFunction
        || (f.deviceFunction == g.deviceFunction && (
            || f.functionInstance < g.functionInstance
            || (f.functionInstance == g.functionInstance && LexLessBottom(f, g))))))
  }

  /** The fields from the ECU instance down. */
  predicate LexLessBottom(f: Fields, g: Fields) {
    || f.ecuInstance < g.ecuInstance
    || (f.ecuInstance == g.ecuInstance && (
        || f.manufacturer < g.manufacturer
        || (f.manufacturer == g.manufacturer && f.identity < g.identity)))
  }

  lemma HighOrder(f: Fields, g: Fields)
    requires Fits(f) && Fits(g)
    ensures Above(f, 6) < Above(g, 6) || (Above(f, 6) == Above(g, 6) && LexLessLow(f, g)) <==> LexLess(f, g)
  {
    hide LexLessLow;
    Leading(f.arbitrary, g.arbitrary, 8, f.industryGroup, g.industryGroup);
    Leading(Above(f, 8), Above(g, 8), 16, f.systemInstance, g.systemInstance);
    Leading(Above(f, 7), Above(g, 7), 128, f.system, g.system);
  }

  lemma MiddleOrder(f: Fields, g: Fields)
    requires Fits(f) && Fits(g)
    ensures Above(f, 3) < Above(g, 3) || (Above(f, 3) == Above(g, 3) && LexLessBottom(f, g))
        <==> Above(f, 6) < Above(g, 6) || (Above(f, 6) == Above(g, 6) && LexLessLow(f, g))
  {
    hide LexLessBottom;
    Leading(Above(f, 6), Above(g, 6), 2, f.reserved, g.reserved);
    Leading(Above(f, 5), Above(g, 5), 256, f.deviceFunction, g.deviceFunction);
    Leading(Above(f, 4), Above(g, 4), 32, f.functionInstance, g.functionInstance);
  }

  lemma LowOrder(f: Fields, g: Fields)
    requires Fits(f) && Fits(g)
    ensures Above(f, 0) < Above(g, 0)
        <==> Above(f, 3) < Above(g, 3) || (Above(f, 3) == Above(g, 3) && LexLessBottom(f, g))
  {
    Leading(Above(f, 3), Above(g, 3), 8, f.ecuInstance, g.ecuInstance);
    Leading(Above(f, 2), Above(g, 2), 2048, f.manufacturer, g.manufacturer);
    Leading(Above(f, 1), Above(g, 1), 0x20_0000, f.identity, g.identity);
  }

  /** Numeric order is lexicographic order of the fields, from the arbitrary address bit down. */
  lemma OrderIsLexicographic(f: Fields, g: Fields)
    requires Fits(f) && Fits(g)
    ensures Value(f) < Value(g) <==> LexLess(f, g)
  {
    hide Value, Above, LexLess, LexLessLow, LexLessBottom, Fits;
    AboveIsShift(f);
    AboveIsShift(g);
    HighOrder(f, g);
    MiddleOrder(f, g);
    LowOrder(f, g);
  }

  /** Different NAMEs have different values. */
  lemma ValueInjective(f: Fields, g: Fields)
    requires Fits(f) && Fits(g) && Value(f) == Value(g)
    ensures f == g
  {
    hide Value;
    OrderIsLexicographic(f, g);
    OrderIsLexicographic(g, f);
  }

  lemma ValueBounds(f: Fields)
    requires Fits(f)
    ensures 0 <= Value(f) < 0x1_0000_0000_0000_0000
  {
  }

  /** `value` is a bijection between field tuples in range and 64-bit numbers. */
  lemma FieldsOfValue(f: Fields)
    requires Fits(f)
    ensures 0 <= Value(f) < 0x1_0000_0000_0000_0000 && FieldsOf(Value(f)) == f
  {
    ValueBounds(f);
    ValueOfFields(Value(f));
    ValueInjective(FieldsOf(Value(f)), f);
  }

  /**
   A NAME object clears the reserved bit when it is built: it has the value it was
   built from if and only if bit 48 was clear, and otherwise loses exactly that bit.
   */
  lemma BuiltValue(v: int)
    requires 0 <= v < 0x1_0000_0000_0000_0000
    ensures Value(FieldsOf(v).(reserved := 0)) == v - Bit48(v) * 0x1_0000_0000_0000
    ensures Value(FieldsOf(v).(reserved := 0)) == v <==> Bit48(v) == 0
  {
    ValueOfFields(v);
  }

  /** The byte form, little endian. */
  lemma BytesRoundTrip(v: int)
    requires 0 <= v < 0x1_0000_0000_0000_0000
    ensures LittleEndian(Bytes(v, 8)) == v
  {
    assert Power256(8) == 0x1_0000_0000_0000_0000 by {
      assert Power256(2) == 0x1_0000;
      assert Power256(4) == 0x1_0000_0000;
      assert Power256(6) == 0x1_0000_0000_0000;
    }
    FieldRoundTrip(v, 8);
  }

  class Name {
    var arbitraryAddressCapable: int
    var industryGroup: int
    var vehicleSystemInstance: int
    var vehicleSystem: int
    var reservedBit: int
    var deviceFunction: int
    var functionInstance: int
    var ecuInstance: int
    var manufacturerCode: int
    var identityNumber: int

    function View(): Fields
      reads this
    {
      Fields(arbitraryAddressCapable, industryGroup, vehicleSystemInstance, vehicleSystem, reservedBit,
             deviceFunction, functionInstance, ecuInstance, manufacturerCode, identityNumber)
    }

    constructor FromFields(f: Fields)
      ensures View() == f.(reserved := 0)
    {
      arbitraryAddressCapable, industryGroup := f.arbitrary, f.industryGroup;
      vehicleSystemInstance, vehicleSystem := f.systemInstance, f.system;
      deviceFunction, functionInstance, ecuInstance := f.deviceFunction, f.functionInstance, f.ecuInstance;
      manufacturerCode, identityNumber := f.manufacturer, f.identity;
      reservedBit := 0;
    }

    /** `Name(value=v)`: the setter, then the reserved bit is cleared. */
    constructor FromValue(v: int)
      ensures View() == FieldsOf(v).(reserved := 0)
      ensures 0 <= v < 0x1_0000_0000_0000_0000 ==> Value(View()) == v - Bit48(v) * 0x1_0000_0000_0000
    {
      new;
      SetValue(v);
      reservedBit := 0;
      if 0 <= v < 0x1_0000_0000_0000_0000 { BuiltValue(v); }
    }

    /** `Name(bytes=b)`. */
    constructor FromBytes(bytes: seq<int>)
      ensures View() == FieldsOf(LittleEndian(bytes)).(reserved := 0)
    {
      new;
      SetBytes(bytes);
      reservedBit := 0;
    }

    /** `Name(arbitrary_address_capable=..., ...)`; a field out of range raises. */
    static method Create(f: Fields) returns (name: Name?, error: Option<Error>)
      ensures error == (if Accepted(f) then None else Some(ValueError))
      ensures error.None? ==> name != null && fresh(name) && name.View() == f.(reserved := 0)
    {
      if f.arbitrary < 0 || f.arbitrary > 1 { return null, Some(ValueError); }
      if f.industryGroup < 0 || f.industryGroup > 7 { return null, Some(ValueError); }
      if f.systemInstance < 0 || f.systemInstance > 15 { return null, Some(ValueError); }
      if f.system < 0 || f.system > 127 { return null, Some(ValueError); }
      if f.deviceFunction < 0 || f.deviceFunction > 255 { return null, Some(ValueError); }
      if f.functionInstance < 0 || f.functionInstance > 31 { return null, Some(ValueError); }
      if f.ecuInstance < 0 || f.ecuInstance > 7 { return null, Some(ValueError); }
      if f.manufacturer < 0 || f.manufacturer > 2047 { return null, Some(ValueError); }
      if f.identity < 0 || f.identity > 0x1F_FFFF { return null, Some(ValueError); }
      name := new Name.FromFields(f);
      return name, None;
    }

    method SetValue(v: int)
      modifies this
      ensures View() == FieldsOf(v)
      ensures 0 <= v < 0x1_0000_0000_0000_0000 ==> Value(View()) == v
    {
      identityNumber := v % 0x20_0000;
      manufacturerCode := v / 0x20_0000 % 2048;
      ecuInstance := v / 0x1_0000_0000 % 8;
      functionInstance := v / 0x8_0000_0000 % 32;
      deviceFunction := v / 0x100_0000_0000 % 256;
      reservedBit := v / 0x1_0000_0000_0000 % 2;
      vehicleSystem := v / 0x2_0000_0000_0000 % 128;
      vehicleSystemInstance := v / 0x100_0000_0000_0000 % 16;
      industryGroup := v / 0x1000_0000_0000_0000 % 8;
      arbitraryAddressCapable := v / 0x8000_0000_0000_0000 % 2;
      if 0 <= v < 0x1_0000_0000_0000_0000 { ValueOfFields(v); }
    }

    method SetBytes(bytes: seq<int>)
      modifies this
      ensures View() == FieldsOf(LittleEndian(bytes))
    {
      SetValue(LittleEndian(bytes));
    }

    /** The byte form reads back as the same NAME. */
    method GetBytes() returns (bytes: seq<int>)
      requires Fits(View())
      ensures |bytes| == 8 && IsBytes(bytes) && FieldsOf(LittleEndian(bytes)) == View()
    {
      bytes := Bytes(Value(View()), 8);
      FieldsOfValue(View());
      BytesRoundTrip(Value(View()));
    }
  }
}
