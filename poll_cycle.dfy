/**
 * What one poll cycle of the coordinator computes (custom_components coordinator): the
 * block reads it issues, the snapshot it decodes from the read results, and the
 * rising-edge bookkeeping that follows. Each loop of the source is a fold over its list
 * of catalog entries, one `...Step` per iteration and a `...From` over the rest of the
 * list with the dict built so far.
 */
module PollCycle {
  import opened Wrappers
  import opened Decimal
  import opened Python
  import opened Registers
  import opened Transport

  /** Why a cycle fails: UpdateFailed, or the ValueError of `max()` over an empty input catalog. */
  datatype CycleError = UpdateFailed | EmptyInputCatalog

  /** The input block starts at PDU address 0, whatever the catalog holds. */
  const INPUT_START: int := 0
  /** The holding block is fixed: 79 registers from PDU address 0. */
  const HOLDING_START: int := 0
  const HOLDING_COUNT: int := 79

  /** Every entry the decoding loops store is a register reading. */
  predicate AllReadings(m: Snapshot) {
    forall k :: k in m ==> m[k].Reading?
  }

  function CountOf(item: Item): int { item.count.GetOr(1) }

  /** The 0-based PDU address of a catalog entry (section 4.4 of the Modbus Application Protocol Specification V1.1b3). */
  function Pdu(item: Item): int { item.address - 1 }

  // Snapshot ids, with the defaults each loop uses when an entry has no `unique_id`.
  function InputId(item: Item): string { item.uniqueId.GetOr(IntToString(Pdu(item))) }
  function HoldingId(item: Item): string { item.uniqueId.GetOr("holding_" + IntToString(Pdu(item))) }
  function BinaryId(item: Item): string { item.uniqueId.GetOr("binary_" + IntToString(Pdu(item))) }
  /** The id the edge tracker looks up: built from the 1-based address, unlike `BinaryId`. */
  function TrackId(item: Item): string { item.uniqueId.GetOr("binary_" + IntToString(item.address)) }

  const LAST_TRIGGERED: string := "last_triggered_"

  function LastTriggeredKey(address: int): string { LAST_TRIGGERED + IntToString(address) }

  predicate IsLastTriggeredKey(k: string) {
    |k| >= |LAST_TRIGGERED| && k[..|LAST_TRIGGERED|] == LAST_TRIGGERED
  }

  /** The two bit tables, which differ only in function code and default id and type. */
  datatype BitTable = DiscreteInputs | Coils {
    function Code(): FunctionCode {
      if DiscreteInputs? then ReadDiscreteInputs else ReadCoils
    }
    function DefaultType(): string {
      if DiscreteInputs? then "discrete_input" else "coil"
    }
    function Id(item: Item): string {
      item.uniqueId.GetOr((if DiscreteInputs? then "discrete_" else "coil_") + IntToString(Pdu(item)))
    }
  }

  /** `max(item["address"] - 1 for item in items)`. */
  function MaxPdu(items: seq<Item>): (r: int)
    requires |items| > 0
    ensures forall i :: 0 <= i < |items| ==> Pdu(items[i]) <= r
    ensures exists i :: 0 <= i < |items| && Pdu(items[i]) == r
  {
    if |items| == 1 then Pdu(items[0])
    else
      var m := MaxPdu(items[1..]);
      assert forall i :: 1 <= i < |items| ==> items[i] == items[1..][i - 1];
      if Pdu(items[0]) >= m then Pdu(items[0]) else m
  }

  /** `min(item["address"] - 1 for item in items)`. */
  function MinPdu(items: seq<Item>): (r: int)
    requires |items| > 0
    ensures forall i :: 0 <= i < |items| ==> r <= Pdu(items[i])
    ensures exists i :: 0 <= i < |items| && Pdu(items[i]) == r
  {
    if |items| == 1 then Pdu(items[0])
    else
      var m := MinPdu(items[1..]);
      assert forall i :: 1 <= i < |items| ==> items[i] == items[1..][i - 1];
      if Pdu(items[0]) <= m then Pdu(items[0]) else m
  }

  /** The input read: from address 0 up to the highest PDU address of the catalog. */
  function InputRequest(items: seq<Item>): ReadRequest
    requires |items| > 0
  {
    ReadRequest(ReadInputRegisters, INPUT_START, MaxPdu(items) - INPUT_START + 1)
  }

  /** A bit read: the tight block from the lowest to the highest PDU address. */
  function BitRequest(table: BitTable, items: seq<Item>): ReadRequest
    requires |items| > 0
  {
    ReadRequest(table.Code(), MinPdu(items), MaxPdu(items) - MinPdu(items) + 1)
  }

  const HOLDING_REQUEST: ReadRequest := ReadRequest(ReadHoldingRegisters, HOLDING_START, HOLDING_COUNT)

  // ---------------------------------------------------------------------------------
  // Input registers: fatal on IndexError, sentinel entries skipped.

  /** One input entry. `None` is the IndexError of `rr.registers[...]` on a short block. */
  function InputStep(acc: Snapshot, item: Item, regs: seq<int>): Option<Snapshot> {
    var a := Pdu(item);
    var kind := item.inputType.GetOr("input");
    if CountOf(item) == 1 then
      match Index(regs, a - INPUT_START)
      case None => None
      case Some(raw) =>
        if raw == SENTINEL then Some(acc)
        else Some(acc[InputId(item) := Reading(Word(raw), kind, a)])
    else
      var ws := Slice(regs, a - INPUT_START, a - INPUT_START + CountOf(item));
      if |ws| > 0 && ws[0] == SENTINEL then Some(acc)
      else Some(acc[InputId(item) := Reading(Words(ws), kind, a)])
  }

  function InputFrom(items: seq<Item>, regs: seq<int>, acc: Snapshot): (r: Option<Snapshot>)
    ensures AllReadings(acc) && r.Some? ==> AllReadings(r.value)
    decreases |items|
  {
    if |items| == 0 then Some(acc)
    else match InputStep(acc, items[0], regs)
      case None => None
      case Some(next) => InputFrom(items[1..], regs, next)
  }

  // ---------------------------------------------------------------------------------
  // Discrete inputs and coils: best effort.

  /**
   * One bit entry: stored as 0/1 with its 1-based address when its offset lies in the
   * returned bits. The source tests only `off < len(bits)`; `base` is the lowest PDU
   * address of the table, so `off` is never negative there.
   */
  function BitStep(table: BitTable, acc: Snapshot, item: Item, base: int, bits: seq<bool>): Snapshot {
    var off := Pdu(item) - base;
    if 0 <= off < |bits| then
      acc[table.Id(item) := Reading(Word(if bits[off] then 1 else 0), item.inputType.GetOr(table.DefaultType()), Pdu(item) + 1)]
    else acc
  }

  function BitsFrom(table: BitTable, items: seq<Item>, base: int, bits: seq<bool>, acc: Snapshot): (r: Snapshot)
    ensures AllReadings(acc) ==> AllReadings(r)
    decreases |items|
  {
    if |items| == 0 then acc
    else BitsFrom(table, items[1..], base, bits, BitStep(table, acc, items[0], base, bits))
  }

  /** The whole bit section: skipped for an empty table, and adding nothing when the read fails or raises. */
  function BitPhase(table: BitTable, items: seq<Item>, read: ReadResult<bool>, acc: Snapshot): Snapshot {
    if |items| == 0 then acc
    else match read
      case Response(bits) => BitsFrom(table, items, MinPdu(items), bits, acc)
      case _ => acc
  }

  // ---------------------------------------------------------------------------------
  // Holding and select registers: fixed block, fallback to the input block on an exception.

  /** One holding entry from the holding block. `None` is an IndexError, which sends the cycle to the fallback. */
  function HoldingStep(acc: Snapshot, item: Item, hregs: seq<int>): Option<Snapshot> {
    var a := Pdu(item);
    if a < |hregs| then
      match Index(hregs, a)
      case None => None
      case Some(raw) =>
        if raw == SENTINEL then Some(acc)
        else Some(acc[HoldingId(item) := Reading(Word(raw), item.inputType.GetOr("holding"), a + 1)])
    else Some(acc)
  }

  /** The holding loop: the entries stored so far, and whether the loop raised. */
  function HoldingFrom(items: seq<Item>, hregs: seq<int>, acc: Snapshot): (r: (Snapshot, bool))
    ensures AllReadings(acc) ==> AllReadings(r.0)
    decreases |items|
  {
    if |items| == 0 then (acc, false)
    else match HoldingStep(acc, items[0], hregs)
      case None => (acc, true)
      case Some(next) => HoldingFrom(items[1..], hregs, next)
  }

  /** One entry of the fallback: read from the input block when its PDU address lies in `[0, end]`. */
  function FallbackStep(acc: Snapshot, item: Item, end: int, regs: seq<int>): Option<Snapshot> {
    var a := Pdu(item);
    if a <= end && a >= INPUT_START then
      match Index(regs, a - INPUT_START)
      case None => None
      case Some(raw) =>
        if raw == SENTINEL then Some(acc)
        else Some(acc[HoldingId(item) := Reading(Word(raw), item.inputType.GetOr("holding"), a + 1)])
    else Some(acc)
  }

  function FallbackFrom(items: seq<Item>, end: int, regs: seq<int>, acc: Snapshot): (r: Option<Snapshot>)
    ensures AllReadings(acc) && r.Some? ==> AllReadings(r.value)
    decreases |items|
  {
    if |items| == 0 then Some(acc)
    else match FallbackStep(acc, items[0], end, regs)
      case None => None
      case Some(next) => FallbackFrom(items[1..], end, regs, next)
  }

  /**
   * The whole holding section. An error response only logs; an exception (from the read
   * or from the loop) runs the fallback, whose own IndexError is fatal.
   */
  function HoldingPhase(items: seq<Item>, read: ReadResult<int>, end: int, regs: seq<int>, acc: Snapshot): Option<Snapshot> {
    if |items| == 0 then Some(acc)
    else match read
      case Response(hregs) =>
        var (m, raised) := HoldingFrom(items, hregs, acc);
        if raised then FallbackFrom(items, end, regs, m) else Some(m)
      case ErrorResponse => Some(acc)
      case Raised => FallbackFrom(items, end, regs, acc)
  }

  // ---------------------------------------------------------------------------------
  // Binary sensors: read from the input block, never overwriting an id already present.

  function BinaryStep(acc: Snapshot, item: Item, regs: seq<int>): Option<Snapshot> {
    var a := Pdu(item);
    if BinaryId(item) in acc then Some(acc)
    else match Index(regs, a - INPUT_START)
      case None => None
      case Some(raw) =>
        if raw == SENTINEL then Some(acc)
        else Some(acc[BinaryId(item) := Reading(Word(raw), item.inputType.GetOr("input"), a + 1)])
  }

  function BinaryFrom(items: seq<Item>, regs: seq<int>, acc: Snapshot): (r: Option<Snapshot>)
    ensures AllReadings(acc) && r.Some? ==> AllReadings(r.value)
    decreases |items|
  {
    if |items| == 0 then Some(acc)
    else match BinaryStep(acc, items[0], regs)
      case None => None
      case Some(next) => BinaryFrom(items[1..], regs, next)
  }

  // ---------------------------------------------------------------------------------
  // The decoded snapshot of one cycle.

  /**
   * The dict a successful cycle assigns to `self.data`, before the `last_triggered_*`
   * keys are added. The read results are those the device gives for the requests of
   * `ReadsIssued`.
   */
  function Decode(cat: Catalog, rr: ReadResult<int>, di: ReadResult<bool>, co: ReadResult<bool>, hr: ReadResult<int>): (r: Result<Snapshot, CycleError>)
    ensures r.Success? ==> AllReadings(r.value)
  {
    if |cat.input| == 0 then Failure(EmptyInputCatalog)
    else match rr
      case Response(regs) =>
        (match InputFrom(cat.input, regs, map[])
         case None => Failure(UpdateFailed)
         case Some(d1) =>
           var d2 := BitPhase(DiscreteInputs, cat.discrete, di, d1);
           var d3 := BitPhase(Coils, cat.coils, co, d2);
           match HoldingPhase(cat.holding + cat.select, hr, MaxPdu(cat.input), regs, d3)
           case None => Failure(UpdateFailed)
           case Some(d4) =>
             match BinaryFrom(cat.binary, regs, d4)
             case None => Failure(UpdateFailed)
             case Some(d5) => Success(d5))
      case _ => Failure(UpdateFailed)
  }

  function OptionalBitRead(table: BitTable, items: seq<Item>): seq<ReadRequest> {
    if |items| == 0 then [] else [BitRequest(table, items)]
  }

  /** The reads a connected cycle issues, in order; the secondary reads follow only a usable input block. */
  function ReadsIssued(cat: Catalog, rr: ReadResult<int>): seq<ReadRequest> {
    if |cat.input| == 0 then []
    else if rr.Response? && InputFrom(cat.input, rr.values, map[]).Some? then
      [InputRequest(cat.input)]
      + OptionalBitRead(DiscreteInputs, cat.discrete)
      + OptionalBitRead(Coils, cat.coils)
      + (if |cat.holding + cat.select| == 0 then [] else [HOLDING_REQUEST])
    else [InputRequest(cat.input)]
  }

  // ---------------------------------------------------------------------------------
  // Edge tracking.

  /** Only the `last_triggered_*` keys hold timestamps. */
  predicate StampsOnlyUnderLastTriggered(m: Snapshot) {
    forall k :: k in m && m[k].Stamp? ==> IsLastTriggeredKey(k)
  }

  /**
   * Which id the edge tracker looks a binary sensor up under. The source builds it from the
   * 1-based address (`AsWritten`), while the binary loop above stored the value under the
   * 0-based one; `Corrected` uses the id the value was stored under.
   */
  datatype Tracker = AsWritten | Corrected {
    function Key(b: Item): string {
      if AsWritten? then TrackId(b) else BinaryId(b)
    }
  }

  /** No binary sensor is tracked under a `last_triggered_*` id. */
  predicate TrackIdsWellFormed(t: Tracker, binaries: seq<Item>) {
    forall i :: 0 <= i < |binaries| ==> !IsLastTriggeredKey(t.Key(binaries[i]))
  }

  /**
   * `data.get(id, {}).get("value")`. On a timestamp the source raises AttributeError;
   * `TrackStep` requires that this never happens, so the `None` given for it is never used.
   */
  function ValueAt(m: Snapshot, id: string): Option<Value> {
    if id in m && m[id].Reading? then Some(m[id].value) else None
  }

  /** "running" is on at 0, "problem" at 1; other device classes are not tracked. An absent value is off. */
  predicate IsOn(deviceClass: Option<string>, v: Option<Value>) {
    (deviceClass == Some("running") && v == Some(Word(0)))
    || (deviceClass == Some("problem") && v == Some(Word(1)))
  }

  /** The off-to-on transition that records a timestamp. */
  predicate RisingEdge(t: Tracker, b: Item, data: Snapshot, prev: Snapshot) {
    IsOn(b.deviceClass, ValueAt(data, t.Key(b))) && !IsOn(b.deviceClass, ValueAt(prev, t.Key(b)))
  }

  /** One binary sensor: record `now` on a rising edge, then republish its timestamp if it has one. */
  function TrackStep(t: Tracker, b: Item, data: Snapshot, prev: Snapshot, lt: map<int, Time>, now: Time): (Snapshot, map<int, Time>)
    requires t.Key(b) in data ==> data[t.Key(b)].Reading?
    requires t.Key(b) in prev ==> prev[t.Key(b)].Reading?
  {
    var lt' := if RisingEdge(t, b, data, prev) then lt[b.address := now] else lt;
    var data' := if b.address in lt' then data[LastTriggeredKey(b.address) := Stamp(lt'[b.address])] else data;
    (data', lt')
  }

  lemma LastTriggeredKeyIsOne(a: int)
    ensures IsLastTriggeredKey(LastTriggeredKey(a))
  {
    assert LastTriggeredKey(a)[..|LAST_TRIGGERED|] == LAST_TRIGGERED;
  }

  function TrackFrom(t: Tracker, bs: seq<Item>, data: Snapshot, prev: Snapshot, lt: map<int, Time>, now: Time): (r: (Snapshot, map<int, Time>))
    requires TrackIdsWellFormed(t, bs)
    requires StampsOnlyUnderLastTriggered(data) && StampsOnlyUnderLastTriggered(prev)
    ensures StampsOnlyUnderLastTriggered(r.0)
    decreases |bs|
  {
    if |bs| == 0 then (data, lt)
    else
      var (d, l) := TrackStep(t, bs[0], data, prev, lt, now);
      LastTriggeredKeyIsOne(bs[0].address);
      TrackFrom(t, bs[1..], d, prev, l, now)
  }
}
