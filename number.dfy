/**
 * The number platform (custom_components number): one slider per holding register. Its
 * value is the register read as signed 16-bit times the scale (or the raw word when the
 * enum map knows it); setting a value divides by the scale, truncates, encodes negative
 * numbers as two's complement and writes the word to the register's catalog address.
 */
module Number {
  import opened Wrappers
  import opened Decimal
  import opened Python
  import opened Registers
  import opened Transport

  datatype NumberEntity = NumberEntity(
    uniqueId: string,
    address: int,
    minValue: PyNum,
    maxValue: PyNum,
    step: PyNum,
    scale: PyNum,
    enumMap: Option<EnumMap>)

  /** The entity id the setup gives a holding register without `unique_id`. */
  function HoldingEntityId(address: int): string {
    DOMAIN + "_holding_" + IntToString(address)
  }

  /** The number entity HA shows is always a slider, with or without an enum map. */
  const MODE: string := "slider"

  /**
   * The setup loop's entity for one catalog entry: range 0 to 100 in steps of 1 and scale 1
   * unless the entry says otherwise; an empty `unique_id` falls back to `<domain>_<address>`.
   */
  function NumberFor(item: Item): (e: NumberEntity)
    ensures e.address == item.address && e.enumMap == item.enumMap
    ensures e.minValue == item.minValue.GetOr(PyInt(0)) && e.maxValue == item.maxValue.GetOr(PyInt(100))
    ensures e.step == item.step.GetOr(PyInt(1)) && e.scale == item.scale.GetOr(PyInt(1))
    ensures e.uniqueId != []
    ensures item.uniqueId.None? ==> e.uniqueId == HoldingEntityId(item.address)
    ensures item.uniqueId.Some? && item.uniqueId.value != [] ==> e.uniqueId == item.uniqueId.value
  {
    var u := item.uniqueId.GetOr(HoldingEntityId(item.address));
    NumberEntity(
      if u == [] then DOMAIN + "_" + IntToString(item.address) else u,
      item.address,
      item.minValue.GetOr(PyInt(0)), item.maxValue.GetOr(PyInt(100)), item.step.GetOr(PyInt(1)),
      item.scale.GetOr(PyInt(1)), item.enumMap)
  }

  /**
   * The entity's value. A word the enum map has as a key is shown raw; any other word is
   * read as signed 16-bit and scaled. A list is unhashable for the enum test and cannot be
   * compared with 32767 (TypeError); a timestamp has no `.get` (AttributeError).
   */
  function NativeValue(e: NumberEntity, data: Snapshot): Result<State, PyError> {
    match Get(data, e.uniqueId)
    case NoEntry => Success(Unknown)
    case NotADict => Failure(AttributeError)
    case Val(Words(_)) => Failure(TypeError)
    case Val(Word(w)) =>
      if EnumEnabled(e.enumMap) && HasKey(e.enumMap.value, Int(w)) then Success(Number(w as real))
      else Success(Number(Signed16(w) as real * e.scale.AsReal()))
  }

  /** The word `async_set_native_value` writes: `int(value / scale)`, plus 65536 when negative. */
  function EncodeRaw(e: NumberEntity, value: real): Result<int, PyError> {
    if e.scale.AsReal() == 0.0 then Failure(ZeroDivisionError)
    else Success(Unsigned16(Trunc(value / e.scale.AsReal())))
  }

  /**
   * Setting a value: one write of the encoded word to the catalog address, then one refresh
   * request. Division by a zero scale raises before anything is written; a write that
   * raises propagates and no refresh is requested.
   */
  method SetNativeValue(link: ModbusLink, e: NumberEntity, value: real, writeRaises: bool) returns (r: Result<(), PyError>)
    modifies link
    ensures EncodeRaw(e, value).Failure? ==> r == Failure(EncodeRaw(e, value).error) && unchanged(link)
    ensures EncodeRaw(e, value).Success? ==>
      link.writes == old(link.writes) + [RegisterWrite(e.address, Int(EncodeRaw(e, value).value))]
      && (writeRaises ==> r == Failure(ModbusException) && link.refreshRequests == old(link.refreshRequests))
      && (!writeRaises ==> r == Success(()) && link.refreshRequests == old(link.refreshRequests) + 1)
  {
    if e.scale.AsReal() == 0.0 {
      return Failure(ZeroDivisionError);
    }
    var raw := Trunc(value / e.scale.AsReal());
    if raw < 0 {
      raw := 65536 + raw;
    }
    link.writes := link.writes + [RegisterWrite(e.address, Int(raw))];
    if writeRaises {
      return Failure(ModbusException);
    }
    link.refreshRequests := link.refreshRequests + 1;
    return Success(());
  }

  // ---------------------------------------------------------------------------------
  // Properties

  /**
   * Setting the value the entity shows writes back the word it was read from, for any
   * non-zero scale when the word is not an enum key, and for scale 1 when it is.
   */
  lemma ShownValueWritesSameWord(e: NumberEntity, data: Snapshot, w: int)
    requires Get(data, e.uniqueId) == Val(Word(w)) && 0 <= w <= 65535
    requires e.scale.AsReal() != 0.0
    requires EnumEnabled(e.enumMap) && HasKey(e.enumMap.value, Int(w)) ==> e.scale.AsReal() == 1.0
    ensures NativeValue(e, data).Success? && NativeValue(e, data).value.Number?
    ensures EncodeRaw(e, NativeValue(e, data).value.x) == Success(w)
  {
    var k := e.scale.AsReal();
    if EnumEnabled(e.enumMap) && HasKey(e.enumMap.value, Int(w)) {
      assert NativeValue(e, data).value.x == w as real;
      assert (w as real) / k == w as real;
      assert Trunc(w as real) == w;
    } else {
      var v := Signed16(w);
      assert NativeValue(e, data).value.x == v as real * k;
      assert (v as real * k) / k == v as real;
      assert Trunc(v as real) == v;
    }
  }

  /**
   * A value whose truncated quotient fits in signed 16 bits is written as a 16-bit word
   * that reads back as that quotient.
   */
  lemma EncodedWordDecodes(e: NumberEntity, value: real)
    requires e.scale.AsReal() != 0.0
    requires -32768 <= Trunc(value / e.scale.AsReal()) <= 32767
    ensures EncodeRaw(e, value).Success?
    ensures 0 <= EncodeRaw(e, value).value <= 65535
    ensures Signed16(EncodeRaw(e, value).value) == Trunc(value / e.scale.AsReal())
  {
  }

  /**
   * With scale 1, a whole value in the signed 16-bit range is written as a word that the
   * entity shows as that value again, unless the word is an enum key.
   */
  lemma ScaleOneRoundTrip(e: NumberEntity, data: Snapshot, v: int)
    requires e.scale == PyInt(1) && -32768 <= v <= 32767
    requires Get(data, e.uniqueId) == Val(Word(Unsigned16(v)))
    requires !(EnumEnabled(e.enumMap) && HasKey(e.enumMap.value, Int(Unsigned16(v))))
    ensures EncodeRaw(e, v as real) == Success(Unsigned16(v))
    ensures 0 <= Unsigned16(v) <= 65535
    ensures NativeValue(e, data) == Success(Number(v as real))
  {
    assert (v as real) / 1.0 == v as real;
    assert Trunc(v as real) == v;
    SignedRoundTrip(v);
  }

  /** 21.5 with scale 0.01 is written as 2150, and -3 with scale 1 as 65533. */
  lemma EncodeExamples(e: NumberEntity)
    ensures EncodeRaw(e.(scale := PyFloat(0.01)), 21.5) == Success(2150)
    ensures EncodeRaw(e.(scale := PyInt(1)), -3.0) == Success(65533)
  {
    assert 21.5 / 0.01 == 2150.0;
    assert Trunc(2150.0) == 2150;
    assert Trunc(-3.0) == -3;
  }
}
