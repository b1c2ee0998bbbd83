/**
 * The sensor platform (custom_components sensor): the input-register sensors, the
 * calculated heat power, coefficient of performance and flow/return temperature difference,
 * and the sensors that show when a binary sensor last switched on. Each `native_value` is a
 * function of the coordinator's snapshot; a Python exception it would raise is a `Failure`.
 */
module Sensor {
  import opened Wrappers
  import opened Decimal
  import opened Python
  import opened Registers
  import opened PollCycle
  import opened PollProperties

  /** A sensor for one input register, as the setup builds it from a catalog entry. */
  datatype InputSensor = InputSensor(uniqueId: string, address: int, scale: PyNum, enumMap: Option<EnumMap>)

  /** The entity id the setup gives an input register without `unique_id`. */
  function InputEntityId(address: int): string {
    DOMAIN + "_input_" + IntToString(address)
  }

  /** The setup loop's defaults: scale 1, and an id built from the address. */
  function InputSensorFor(item: Item): (s: InputSensor)
    ensures s.scale == item.scale.GetOr(PyInt(1))
    ensures item.uniqueId.Some? ==> s.uniqueId == item.uniqueId.value
    ensures item.uniqueId.None? ==> s.uniqueId == InputEntityId(item.address)
  {
    InputSensor(item.uniqueId.GetOr(InputEntityId(item.address)), item.address, item.scale.GetOr(PyInt(1)), item.enumMap)
  }

  /** `val * scale` once `val` is a label: repetition for an int scale, TypeError for a float. */
  function ScaleLabel(name: string, scale: PyNum): Result<State, PyError> {
    match scale
    case PyInt(k) => Success(Text(Repeat(name, k)))
    case PyFloat(_) => Failure(TypeError)
  }

  /**
   * The state of an input sensor: nothing without an entry; the word read as signed 16-bit,
   * replaced by its label when the enum map has one, then multiplied by the scale. A list
   * value cannot be compared with 32767 (TypeError) and a timestamp has no `.get`
   * (AttributeError). Rounding of Celsius values to two decimals is not modelled.
   */
  function InputValue(s: InputSensor, data: Snapshot): Result<State, PyError> {
    match Get(data, s.uniqueId)
    case NoEntry => Success(Unknown)
    case NotADict => Failure(AttributeError)
    case Val(Words(_)) => Failure(TypeError)
    case Val(Word(w)) =>
      var v := Signed16(w);
      if EnumEnabled(s.enumMap) && HasKey(s.enumMap.value, Int(v)) then
        ScaleLabel(LookupKey(s.enumMap.value, Int(v)).value, s.scale)
      else Success(Number(v as real * s.scale.AsReal()))
  }

  // ---------------------------------------------------------------------------------
  // Calculated sensors

  /** `data.get(id, {}).get("value", 0)` where the value takes part in arithmetic with a float. */
  function RawOrZero(data: Snapshot, id: string): Result<int, PyError> {
    match Get(data, id)
    case NoEntry => Success(0)
    case NotADict => Failure(AttributeError)
    case Val(Word(w)) => Success(w)
    case Val(Words(_)) => Failure(TypeError)
  }

  /** The ids the calculated sensors read: flow rate, leaving and return water temperature, power consumption. */
  const FLOW_ID: string := DOMAIN + "_input_48"
  const LEAVING_ID: string := DOMAIN + "_input_39"
  const RETURN_ID: string := DOMAIN + "_input_41"
  const POWER_ID: string := DOMAIN + "_input_50"

  /** The three raw inputs of the heat-power formulas, or the first exception reading them raises. */
  function HeatInputs(data: Snapshot): Result<(int, int, int), PyError> {
    match RawOrZero(data, FLOW_ID)
    case Failure(e) => Failure(e)
    case Success(flow) =>
      match RawOrZero(data, LEAVING_ID)
      case Failure(e) => Failure(e)
      case Success(vl) =>
        match RawOrZero(data, RETURN_ID)
        case Failure(e) => Failure(e)
        case Success(rl) => Success((flow, vl, rl))
  }

  /** The heat-power sensor: flow in 0.1 l/min times the raw temperature difference times 0.07 (before rounding). */
  function HeatPower(data: Snapshot): Result<real, PyError> {
    match HeatInputs(data)
    case Failure(e) => Failure(e)
    case Success((flow, vl, rl)) => Success(flow as real * 0.1 * (vl - rl) as real * 0.07)
  }

  /** The heat power inside the CoP sensor: flow and temperatures scaled by 0.01, times 70 W. */
  function CoPHeatPower(data: Snapshot): Result<real, PyError> {
    match HeatInputs(data)
    case Failure(e) => Failure(e)
    case Success((flow, vl, rl)) => Success(flow as real * 0.01 * (vl as real * 0.01 - rl as real * 0.01) * 70.0)
  }

  /** The temperature-difference sensor: leaving minus return water temperature, each scaled by 0.01 (before rounding). */
  function DeltaT(data: Snapshot): Result<real, PyError> {
    match RawOrZero(data, LEAVING_ID)
    case Failure(e) => Failure(e)
    case Success(vl) =>
      match RawOrZero(data, RETURN_ID)
      case Failure(e) => Failure(e)
      case Success(rl) => Success(vl as real * 0.01 - rl as real * 0.01)
  }

  /**
   * The electric power the CoP divides by: the external sensor's reading when one is
   * configured and readable, otherwise the power-consumption register times 10. `None`
   * stands for a falsy power (`0`, or an empty list repeated ten times); a non-empty list
   * cannot be compared with 0 (TypeError).
   */
  function ElectricPower(data: Snapshot, external: Option<real>): Result<Option<real>, PyError> {
    if external.Some? then Success(if external.value == 0.0 then None else Some(external.value))
    else match Get(data, POWER_ID)
      case NoEntry => Success(None)
      case NotADict => Failure(AttributeError)
      case Val(Word(w)) => Success(if w == 0 then None else Some(w as real * 10.0))
      case Val(Words(ws)) => if |ws| == 0 then Success(None) else Failure(TypeError)
  }

  /** The CoP sensor: heat power over electric power when both are positive (before rounding). */
  function CoP(data: Snapshot, external: Option<real>): Result<State, PyError> {
    match CoPHeatPower(data)
    case Failure(e) => Failure(e)
    case Success(heat) =>
      match ElectricPower(data, external)
      case Failure(e) => Failure(e)
      case Success(None) => Success(Unknown)
      case Success(Some(p)) => if p > 0.0 && heat > 0.0 then Success(Number(heat / p)) else Success(Unknown)
  }

  /** A last-triggered sensor shows the snapshot's `last_triggered_<address>` entry, or nothing. */
  function LastTriggered(data: Snapshot, triggerAddress: int): Option<Entry> {
    var k := LastTriggeredKey(triggerAddress);
    if k in data then Some(data[k]) else None
  }

  // ---------------------------------------------------------------------------------
  // Properties

  /**
   * A plain word shows as its signed 16-bit value times the scale, and that state
   * determines the word: dividing by the scale, truncating and encoding as 16 bits gives it
   * back, as the number entity's write path does.
   */
  lemma InputValueRecoversWord(s: InputSensor, data: Snapshot, w: int)
    requires s.uniqueId in data && data[s.uniqueId].Reading? && data[s.uniqueId].value == Word(w)
    requires 0 <= w <= 65535
    requires !EnumEnabled(s.enumMap) && s.scale.AsReal() != 0.0
    ensures InputValue(s, data).Success? && InputValue(s, data).value.Number?
    ensures var x := InputValue(s, data).value.x;
      -32768.0 <= x / s.scale.AsReal() <= 32767.0 && Unsigned16(Trunc(x / s.scale.AsReal())) == w
  {
    var v := Signed16(w);
    var k := s.scale.AsReal();
    assert Get(data, s.uniqueId) == Val(Word(w));
    assert InputValue(s, data).value == Number(v as real * k);
    assert (v as real * k) / k == v as real;
    assert Trunc(v as real) == v;
  }

  /** With an integer scale of 1, a word the enum map knows shows as its label. */
  lemma InputValueShowsLabel(s: InputSensor, data: Snapshot, w: int)
    requires s.uniqueId in data && data[s.uniqueId].Reading? && data[s.uniqueId].value == Word(w)
    requires s.enumMap.Some? && HasKey(s.enumMap.value, Int(Signed16(w)))
    requires s.scale == PyInt(1)
    ensures InputValue(s, data).Success?
    ensures InputValue(s, data).value == Text(LookupKey(s.enumMap.value, Int(Signed16(w))).value)
  {
    var name := LookupKey(s.enumMap.value, Int(Signed16(w))).value;
    assert Get(data, s.uniqueId) == Val(Word(w));
    assert EnumEnabled(s.enumMap);
    assert Repeat(name, 1) == name + Repeat(name, 0);
  }

  /** A multi-word entry cannot be shown by an input sensor. */
  lemma InputValueRejectsWordLists(s: InputSensor, data: Snapshot)
    requires s.uniqueId in data && data[s.uniqueId].Reading? && data[s.uniqueId].value.Words?
    ensures InputValue(s, data) == Failure(TypeError)
  {
  }

  /** The default ids of the coordinator's input loop and of the input sensors never coincide. */
  lemma DefaultInputIdsNeverMeet(item: Item)
    requires item.uniqueId.None?
    ensures InputSensorFor(item).uniqueId != InputId(item)
  {
    assert InputSensorFor(item).uniqueId[0] == 'h';
    IntToStringSign(Pdu(item));
    if Pdu(item) >= 0 {
      NatToStringDigits(Pdu(item));
    }
  }

  /** The heat-power sensor and the heat power inside the CoP agree: both are `0.007 * flow * (leaving - return)` on raw values. */
  lemma HeatPowersAgree(data: Snapshot)
    ensures HeatPower(data) == CoPHeatPower(data)
    ensures HeatPower(data).Success? ==>
      var (flow, vl, rl) := HeatInputs(data).value;
      HeatPower(data).value == 0.007 * flow as real * (vl - rl) as real
  {
    if HeatInputs(data).Success? {
      var (flow, vl, rl) := HeatInputs(data).value;
      var f, d := flow as real, (vl - rl) as real;
      assert HeatPower(data) == Success(f * 0.1 * d * 0.07);
      assert CoPHeatPower(data) == Success(f * 0.01 * (vl as real * 0.01 - rl as real * 0.01) * 70.0);
      calc {
        f * 0.01 * (vl as real * 0.01 - rl as real * 0.01) * 70.0;
        f * 0.01 * (d * 0.01) * 70.0;
        0.007 * f * d;
        f * 0.1 * d * 0.07;
      }
    }
  }

  /** The heat power is the temperature difference sensor's value times `0.7 * flow`. */
  lemma HeatPowerFromDeltaT(data: Snapshot)
    requires HeatPower(data).Success?
    ensures DeltaT(data).Success?
    ensures HeatPower(data).value == 0.7 * RawOrZero(data, FLOW_ID).value as real * DeltaT(data).value
  {
    var (flow, vl, rl) := HeatInputs(data).value;
    var f, d := flow as real, (vl - rl) as real;
    assert DeltaT(data).value == d * 0.01;
    calc {
      f * 0.1 * d * 0.07;
      0.7 * f * (d * 0.01);
    }
  }

  /**
   * The CoP shows a number exactly when the heat power and the electric power are both
   * positive, and that number times the electric power is the heat power.
   */
  lemma CoPIsRatio(data: Snapshot, external: Option<real>)
    requires CoPHeatPower(data).Success? && ElectricPower(data, external).Success?
    ensures var heat, p := CoPHeatPower(data).value, ElectricPower(data, external).value;
      (CoP(data, external).value.Number? <==> p.Some? && p.value > 0.0 && heat > 0.0)
      && (CoP(data, external).value.Number? ==> CoP(data, external).value.x * p.value == heat)
  {
  }

  /**
   * After a cycle, with either tracker, the last-triggered sensor of a binary sensor that
   * switched on shows the cycle's time, and one whose address has a timestamp shows that
   * timestamp.
   */
  lemma LastTriggeredShowsTracker(t: Tracker, bs: seq<Item>, data: Snapshot, prev: Snapshot, lt: map<int, Time>, now: Time, j: int)
    requires TrackIdsWellFormed(t, bs)
    requires StampsOnlyUnderLastTriggered(data) && StampsOnlyUnderLastTriggered(prev)
    requires 0 <= j < |bs|
    ensures var (d', lt') := TrackFrom(t, bs, data, prev, lt, now);
      var a := bs[j].address;
      (a in lt' ==> LastTriggered(d', a) == Some(Stamp(lt'[a])))
      && (RisingEdge(t, bs[j], data, prev) ==> LastTriggered(d', a) == Some(Stamp(now)))
  {
    var a := bs[j].address;
    TrackedTimesPublished(t, bs, data, prev, lt, now, j);
    TrackedTimes(t, bs, data, prev, lt, now, a);
    assert RisingEdge(t, bs[j], data, prev) ==> EdgeAt(t, bs, data, prev, a);
  }
}
