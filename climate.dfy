/**
 * The thermostat entity (custom_components climate): it shows the leaving water temperature
 * as the current temperature and the weather-dependent heating setpoint offset (holding
 * register 53) as the target, maps the operation mode (register 2) to an HVAC mode and the
 * quiet mode (register 8) to a fan mode, and derives the HVAC action from the compressor
 * status. Setting a target clamps the rounded temperature to the offset register's limits
 * and writes it as a 16-bit word. Every getter reads the snapshot with
 * `data.get(id, {}).get("value", 0)`, so a missing entry counts as 0.
 */
module Climate {
  import opened Wrappers
  import opened Python
  import opened Registers
  import opened Transport
  import Sensor
  import Number

  const CURRENT_TEMP_REGISTER: int := 40
  const OFFSET_REGISTER: int := 53
  const OPERATION_MODE_REGISTER: int := 2
  const QUIET_MODE_REGISTER: int := 8
  const COMPRESSOR_REGISTER: int := 30

  /** The fan modes stand for the quiet-mode settings. */
  const FAN_OFF: string := "OFF"
  const FAN_AUTO: string := "On (Automatic)"
  const FAN_MANUAL: string := "On (Manual)"
  const FAN_MODES: seq<string> := [FAN_OFF, FAN_AUTO, FAN_MANUAL]

  /** Home Assistant's HVAC modes. */
  datatype HvacMode = Off | Heat | Cool | HeatCool | Auto | Dry | FanOnly

  /** The modes the entity offers. */
  const HVAC_MODES: seq<HvacMode> := [Heat, Cool, Auto]

  /** The HVAC actions the entity reports. */
  datatype HvacAction = Heating | Cooling | Idle

  /** `data.get(id, {}).get("value", 0)`: a missing entry reads as the word 0; a timestamp has no `.get`. */
  function ValueOrZero(data: Snapshot, id: string): Result<Value, PyError> {
    match Get(data, id)
    case NoEntry => Success(Word(0))
    case NotADict => Failure(AttributeError)
    case Val(v) => Success(v)
  }

  // ---------------------------------------------------------------------------------
  // The offset register's configuration

  /**
   * The first holding-register entry with address 53, or ValueError when there is none.
   * `OffsetConfigIsFirst` pins down which entry it is.
   */
  function OffsetConfig(holding: seq<Item>): (r: Result<Item, PyError>)
    ensures r.Failure? <==> forall i :: 0 <= i < |holding| ==> holding[i].address != OFFSET_REGISTER
    ensures r.Failure? ==> r.error == ValueError
    ensures r.Success? ==> r.value in holding && r.value.address == OFFSET_REGISTER
  {
    if |holding| == 0 then Failure(ValueError)
    else if holding[0].address == OFFSET_REGISTER then Success(holding[0])
    else
      var r := OffsetConfig(holding[1..]);
      assert forall i :: 1 <= i < |holding| ==> holding[i] == holding[1..][i - 1];
      r
  }

  /** The search loop over the holding registers, returning on the first match. */
  method FindOffsetConfig(holding: seq<Item>) returns (r: Result<Item, PyError>)
    ensures r == OffsetConfig(holding)
  {
    for i := 0 to |holding|
      invariant OffsetConfig(holding[i..]) == OffsetConfig(holding)
    {
      assert holding[i..][0] == holding[i] && holding[i..][1..] == holding[i + 1..];
      if holding[i].address == OFFSET_REGISTER {
        return Success(holding[i]);
      }
    }
    assert holding[|holding|..] == [];
    return Failure(ValueError);
  }

  /** The configured limits and step, with the defaults -5, 5 and 1. */
  function MinLimit(config: Item): real { config.minValue.GetOr(PyInt(-5)).AsReal() }
  function MaxLimit(config: Item): real { config.maxValue.GetOr(PyInt(5)).AsReal() }
  function StepOf(config: Item): real { config.step.GetOr(PyInt(1)).AsReal() }

  /** `min_temp`, `max_temp` and `target_temperature_step`. */
  function MinTemp(holding: seq<Item>): Result<real, PyError> {
    match OffsetConfig(holding)
    case Success(c) => Success(MinLimit(c))
    case Failure(e) => Failure(e)
  }

  function MaxTemp(holding: seq<Item>): Result<real, PyError> {
    match OffsetConfig(holding)
    case Success(c) => Success(MaxLimit(c))
    case Failure(e) => Failure(e)
  }

  function TargetTemperatureStep(holding: seq<Item>): Result<real, PyError> {
    match OffsetConfig(holding)
    case Success(c) => Success(StepOf(c))
    case Failure(e) => Failure(e)
  }

  // ---------------------------------------------------------------------------------
  // Getters

  /** Register 40 times 0.01, with no signed conversion; a list cannot be multiplied by a float. */
  function CurrentTemperature(data: Snapshot): Result<real, PyError> {
    match ValueOrZero(data, Sensor.InputEntityId(CURRENT_TEMP_REGISTER))
    case Failure(e) => Failure(e)
    case Success(Words(_)) => Failure(TypeError)
    case Success(Word(w)) => Success(w as real * 0.01)
  }

  /**
   * Register 53 read as signed 16-bit, times the configured scale (default 1). The
   * comparison with 32767 raises TypeError for a list before the configuration is looked up.
   */
  function TargetTemperature(holding: seq<Item>, data: Snapshot): Result<real, PyError> {
    match ValueOrZero(data, Number.HoldingEntityId(OFFSET_REGISTER))
    case Failure(e) => Failure(e)
    case Success(Words(_)) => Failure(TypeError)
    case Success(Word(w)) =>
      match OffsetConfig(holding)
      case Failure(e) => Failure(e)
      case Success(c) => Success(Signed16(w) as real * c.scale.GetOr(PyInt(1)).AsReal())
  }

  /** The fan mode a quiet-mode word stands for; unknown words read as OFF. */
  function FanModeOfRaw(w: int): string {
    if w == 0 then FAN_OFF else if w == 1 then FAN_AUTO else if w == 2 then FAN_MANUAL else FAN_OFF
  }

  /** The word written for a fan mode; unknown strings write 0. */
  function FanModeRaw(f: string): int {
    if f == FAN_OFF then 0 else if f == FAN_AUTO then 1 else if f == FAN_MANUAL then 2 else 0
  }

  /** The HVAC mode an operation-mode word stands for; unknown words read as AUTO. */
  function HvacModeOfRaw(w: int): HvacMode {
    if w == 0 then Auto else if w == 1 then Heat else if w == 2 then Cool else Auto
  }

  /** The word written for an HVAC mode; modes the device lacks write 0. */
  function HvacModeRaw(m: HvacMode): int {
    match m
    case Auto => 0
    case Heat => 1
    case Cool => 2
    case _ => 0
  }

  /** `fan_mode`: a list is unhashable as a dict key (TypeError). */
  function FanMode(data: Snapshot): Result<string, PyError> {
    match ValueOrZero(data, Number.HoldingEntityId(QUIET_MODE_REGISTER))
    case Failure(e) => Failure(e)
    case Success(Words(_)) => Failure(TypeError)
    case Success(Word(w)) => Success(FanModeOfRaw(w))
  }

  /** `hvac_mode`: a list is unhashable as a dict key (TypeError). */
  function HvacModeOf(data: Snapshot): Result<HvacMode, PyError> {
    match ValueOrZero(data, Number.HoldingEntityId(OPERATION_MODE_REGISTER))
    case Failure(e) => Failure(e)
    case Success(Words(_)) => Failure(TypeError)
    case Success(Word(w)) => Success(HvacModeOfRaw(w))
  }

  /** Python truthiness of a register value. */
  predicate Truthy(v: Value) {
    match v
    case Word(w) => w != 0
    case Words(ws) => |ws| > 0
  }

  /** `hvac_action`: idle while the compressor value is falsy, otherwise heating in HEAT mode and cooling in any other. */
  function HvacActionOf(data: Snapshot): Result<HvacAction, PyError> {
    match ValueOrZero(data, Sensor.InputEntityId(COMPRESSOR_REGISTER))
    case Failure(e) => Failure(e)
    case Success(v) =>
      if !Truthy(v) then Success(Idle)
      else match HvacModeOf(data)
        case Failure(e) => Failure(e)
        case Success(m) => Success(if m == Heat then Heating else Cooling)
  }

  // ---------------------------------------------------------------------------------
  // Setting the target

  /** Python's `round(x, 0)` on an exact value: the nearest integer, ties to the even one. */
  function RoundHalfEven(x: real): (r: int)
    ensures r as real - 0.5 <= x <= r as real + 0.5
    ensures (x == r as real - 0.5 || x == r as real + 0.5) ==> r % 2 == 0
  {
    var f := x.Floor;
    var d := x - f as real;
    if d < 0.5 then f
    else if d > 0.5 then f + 1
    else if f % 2 == 0 then f
    else f + 1
  }

  /** The offset written for a requested temperature: rounded, then clamped to the configured limits. */
  function ClampedOffset(config: Item, temperature: real): real {
    Max(MinLimit(config), Min(MaxLimit(config), RoundHalfEven(temperature) as real))
  }

  /** The word written to register 53: the offset truncated to an int, negative values as two's complement. */
  function OffsetRaw(config: Item, temperature: real): int {
    Unsigned16(Trunc(ClampedOffset(config, temperature)))
  }

  /**
   * `async_set_temperature`: no temperature, no write; a missing configuration raises
   * ValueError before anything is written; otherwise one write to register 53, followed by
   * a refresh unless the write raised (the exception is caught and only logged).
   */
  method SetTemperature(link: ModbusLink, holding: seq<Item>, temperature: Option<real>, writeRaises: bool)
    returns (r: Result<(), PyError>)
    modifies link
    ensures temperature.None? ==> r == Success(()) && unchanged(link)
    ensures temperature.Some? && OffsetConfig(holding).Failure? ==> r == Failure(ValueError) && unchanged(link)
    ensures temperature.Some? && OffsetConfig(holding).Success? ==>
      r == Success(())
      && link.writes == old(link.writes) + [RegisterWrite(OFFSET_REGISTER, Int(OffsetRaw(OffsetConfig(holding).value, temperature.value)))]
      && link.refreshRequests == old(link.refreshRequests) + (if writeRaises then 0 else 1)
  {
    if temperature.None? {
      return Success(());
    }
    var config := FindOffsetConfig(holding);
    if config.Failure? {
      return Failure(config.error);
    }
    var minTemp := config.value.minValue.GetOr(PyInt(-5)).AsReal();
    var maxTemp := config.value.maxValue.GetOr(PyInt(5)).AsReal();
    var offset := Max(minTemp, Min(maxTemp, RoundHalfEven(temperature.value) as real));
    var offsetRaw := Trunc(offset);
    if offsetRaw < 0 {
      offsetRaw := 65536 + offsetRaw;
    }
    link.writes := link.writes + [RegisterWrite(OFFSET_REGISTER, Int(offsetRaw))];
    if !writeRaises {
      link.refreshRequests := link.refreshRequests + 1;
    }
    r := Success(());
  }

  /** `async_set_hvac_mode`: one write to register 2, a refresh unless the write raised. */
  method SetHvacMode(link: ModbusLink, mode: HvacMode, writeRaises: bool)
    modifies link
    ensures link.writes == old(link.writes) + [RegisterWrite(OPERATION_MODE_REGISTER, Int(HvacModeRaw(mode)))]
    ensures link.refreshRequests == old(link.refreshRequests) + (if writeRaises then 0 else 1)
  {
    var modeRaw := if mode == Auto then 0 else if mode == Heat then 1 else if mode == Cool then 2 else 0;
    link.writes := link.writes + [RegisterWrite(OPERATION_MODE_REGISTER, Int(modeRaw))];
    if !writeRaises {
      link.refreshRequests := link.refreshRequests + 1;
    }
  }

  /** `async_set_fan_mode`: one write to register 8, a refresh unless the write raised. */
  method SetFanMode(link: ModbusLink, fanMode: string, writeRaises: bool)
    modifies link
    ensures link.writes == old(link.writes) + [RegisterWrite(QUIET_MODE_REGISTER, Int(FanModeRaw(fanMode)))]
    ensures link.refreshRequests == old(link.refreshRequests) + (if writeRaises then 0 else 1)
  {
    var modeRaw := if fanMode == FAN_OFF then 0 else if fanMode == FAN_AUTO then 1 else if fanMode == FAN_MANUAL then 2 else 0;
    link.writes := link.writes + [RegisterWrite(QUIET_MODE_REGISTER, Int(modeRaw))];
    if !writeRaises {
      link.refreshRequests := link.refreshRequests + 1;
    }
  }

  // ---------------------------------------------------------------------------------
  // Properties

  /** The configuration found is the first entry with address 53. */
  lemma {:induction false} OffsetConfigIsFirst(holding: seq<Item>, i: int)
    requires 0 <= i < |holding| && holding[i].address == OFFSET_REGISTER
    requires forall k :: 0 <= k < i ==> holding[k].address != OFFSET_REGISTER
    ensures OffsetConfig(holding) == Success(holding[i])
  {
    if i > 0 {
      assert holding[1..][i - 1] == holding[i];
      assert forall k :: 0 <= k < i - 1 ==> holding[1..][k] == holding[k + 1];
      OffsetConfigIsFirst(holding[1..], i - 1);
    }
  }

  /** A whole-number temperature is left as it is by the rounding. */
  lemma RoundingKeepsIntegers(n: int)
    ensures RoundHalfEven(n as real) == n
  {
    assert (n as real).Floor == n;
  }

  /**
   * The written offset lies within the configured limits, and a rounded temperature
   * already inside them is written as it is.
   */
  lemma ClampedOffsetWithinLimits(config: Item, temperature: real)
    requires MinLimit(config) <= MaxLimit(config)
    ensures MinLimit(config) <= ClampedOffset(config, temperature) <= MaxLimit(config)
    ensures MinLimit(config) <= RoundHalfEven(temperature) as real <= MaxLimit(config)
      <==> ClampedOffset(config, temperature) == RoundHalfEven(temperature) as real
  {
  }

  /** With the default limits -5 and 5 the word written is one of 0..5 or 65531..65535. */
  lemma DefaultOffsetRawRange(config: Item, temperature: real)
    requires config.minValue.None? && config.maxValue.None?
    ensures var raw := OffsetRaw(config, temperature); 0 <= raw <= 5 || 65531 <= raw <= 65535
  {
    ClampedOffsetWithinLimits(config, temperature);
  }

  /** Limits given as Python ints, so the clamped offset is a whole number. */
  predicate IntegralLimits(config: Item) {
    (config.minValue.None? || config.minValue.value.PyInt?)
    && (config.maxValue.None? || config.maxValue.value.PyInt?)
  }

  /**
   * With integral limits inside the signed 16-bit range and scale 1, the word the entity
   * writes for a temperature reads back as the clamped offset once the snapshot holds it.
   */
  lemma WrittenOffsetReadsBack(holding: seq<Item>, data: Snapshot, temperature: real)
    requires OffsetConfig(holding).Success?
    requires var c := OffsetConfig(holding).value;
      IntegralLimits(c) && c.scale.GetOr(PyInt(1)).AsReal() == 1.0
      && -32768.0 <= MinLimit(c) <= MaxLimit(c) <= 32767.0
    requires Get(data, Number.HoldingEntityId(OFFSET_REGISTER)) == Val(Word(OffsetRaw(OffsetConfig(holding).value, temperature)))
    ensures TargetTemperature(holding, data) == Success(ClampedOffset(OffsetConfig(holding).value, temperature))
  {
    var c := OffsetConfig(holding).value;
    var lo := c.minValue.GetOr(PyInt(-5)).i;
    var hi := c.maxValue.GetOr(PyInt(5)).i;
    var n := RoundHalfEven(temperature);
    var k: int := if n < hi then n else hi;
    var m: int := if k > lo then k else lo;
    assert ClampedOffset(c, temperature) == m as real;
    assert -32768 <= m <= 32767;
    assert Trunc(m as real) == m;
    SignedRoundTrip(m);
  }

  /** The operation-mode words 0, 1 and 2 survive reading and writing back. */
  lemma HvacModeRoundTrip(w: int, m: HvacMode)
    ensures 0 <= w <= 2 ==> HvacModeRaw(HvacModeOfRaw(w)) == w
    ensures m in HVAC_MODES ==> HvacModeOfRaw(HvacModeRaw(m)) == m
    ensures m !in HVAC_MODES ==> HvacModeOfRaw(HvacModeRaw(m)) == Auto
  {
  }

  /** The quiet-mode words 0, 1 and 2 survive reading and writing back, and so do the three fan modes. */
  lemma FanModeRoundTrip(w: int, f: string)
    ensures 0 <= w <= 2 ==> FanModeRaw(FanModeOfRaw(w)) == w
    ensures f in FAN_MODES ==> FanModeOfRaw(FanModeRaw(f)) == f
    ensures f !in FAN_MODES ==> FanModeOfRaw(FanModeRaw(f)) == FAN_OFF
  {
  }

  /** The action is heating exactly when the compressor runs in HEAT mode, and idle exactly when it is off or missing. */
  lemma HvacActionCases(data: Snapshot)
    requires HvacActionOf(data).Success?
    ensures HvacActionOf(data).value == Idle
      <==> !Truthy(ValueOrZero(data, Sensor.InputEntityId(COMPRESSOR_REGISTER)).value)
    ensures HvacActionOf(data).value == Heating
      <==> Truthy(ValueOrZero(data, Sensor.InputEntityId(COMPRESSOR_REGISTER)).value) && HvacModeOf(data) == Success(Heat)
    ensures Sensor.InputEntityId(COMPRESSOR_REGISTER) !in data ==> HvacActionOf(data).value == Idle
  {
  }

  /**
   * The current temperature agrees with an input sensor on the same register with scale
   * 0.01 exactly when the word is not above 32767: the climate entity skips the signed
   * conversion the sensor applies.
   */
  lemma CurrentTemperatureVersusSensor(s: Sensor.InputSensor, data: Snapshot, w: int)
    requires s.uniqueId == Sensor.InputEntityId(CURRENT_TEMP_REGISTER) && s.scale == PyFloat(0.01)
    requires !EnumEnabled(s.enumMap)
    requires Get(data, s.uniqueId) == Val(Word(w))
    ensures CurrentTemperature(data).Success? && Sensor.InputValue(s, data).Success?
    ensures Sensor.InputValue(s, data).value == Number(CurrentTemperature(data).value) <==> w <= 32767
  {
    assert CurrentTemperature(data).value == w as real * 0.01;
    assert Sensor.InputValue(s, data).value == Number(Signed16(w) as real * 0.01);
  }
}
