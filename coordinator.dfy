/**
 * The coordinator object of the integration (custom_components coordinator): it keeps the
 * last snapshot, the snapshot of the cycle before, and the time each binary sensor last
 * switched on. One update cycle runs the decoding loops on the register blocks the device
 * returned and then the edge tracker, which changes the object's fields in place. Each loop
 * is proved to compute the matching fold of `PollCycle`.
 */
module Coordinator {
  import opened Wrappers
  import opened Decimal
  import opened Python
  import opened Registers
  import opened Transport
  import opened PollCycle

  /** The input-register loop; `None` when an entry lies past the end of the block (IndexError). */
  method DecodeInputs(items: seq<Item>, regs: seq<int>) returns (r: Option<Snapshot>)
    ensures r == InputFrom(items, regs, map[])
  {
    var data: Snapshot := map[];
    var i := 0;
    while i < |items|
      invariant 0 <= i <= |items|
      invariant InputFrom(items[i..], regs, data) == InputFrom(items, regs, map[])
    {
      assert items[i..][0] == items[i] && items[i..][1..] == items[i + 1..];
      var next := DecodeInput(data, items[i], regs);
      if next.None? {
        return None;
      }
      data := next.value;
      i := i + 1;
    }
    return Some(data);
  }

  /** One input entry: a single word, or a slice of `count` words; the sentinel in the (first) word skips it. */
  method DecodeInput(data: Snapshot, item: Item, regs: seq<int>) returns (r: Option<Snapshot>)
    ensures r == InputStep(data, item, regs)
  {
    var address := item.address - 1;
    var regCount := item.count.GetOr(1);
    var inputType := item.inputType.GetOr("input");
    var uniqueId := item.uniqueId.GetOr(IntToString(address));
    if regCount == 1 {
      var raw := Index(regs, address - INPUT_START);
      if raw.None? {
        return None;
      }
      if raw.value == SENTINEL {
        return Some(data);
      }
      return Some(data[uniqueId := Reading(Word(raw.value), inputType, address)]);
    }
    var ws := Slice(regs, address - INPUT_START, address - INPUT_START + regCount);
    if |ws| > 0 && ws[0] == SENTINEL {
      return Some(data);
    }
    return Some(data[uniqueId := Reading(Words(ws), inputType, address)]);
  }

  /** The loop over a bit table: each entry whose offset from `start` lies inside the returned bits is stored as 0 or 1. */
  method DecodeBits(table: BitTable, items: seq<Item>, start: int, bits: seq<bool>, data: Snapshot) returns (r: Snapshot)
    ensures r == BitsFrom(table, items, start, bits, data)
  {
    r := data;
    var i := 0;
    while i < |items|
      invariant 0 <= i <= |items|
      invariant BitsFrom(table, items[i..], start, bits, r) == BitsFrom(table, items, start, bits, data)
    {
      var item := items[i];
      assert items[i..][0] == item && items[i..][1..] == items[i + 1..];
      ghost var before := r;
      var address := item.address - 1;
      var off := address - start;
      if 0 <= off < |bits| {
        var raw := if bits[off] then 1 else 0;
        r := r[table.Id(item) := Reading(Word(raw), item.inputType.GetOr(table.DefaultType()), address + 1)];
      }
      assert r == BitStep(table, before, item, start, bits);
      i := i + 1;
    }
  }

  /** The discrete-input or coil section: skipped for an empty table, best effort on a failed read. */
  method DecodeBitTable(table: BitTable, items: seq<Item>, read: ReadResult<bool>, data: Snapshot) returns (r: Snapshot)
    ensures r == BitPhase(table, items, read, data)
  {
    if |items| == 0 || !read.Response? {
      return data;
    }
    r := DecodeBits(table, items, MinPdu(items), read.values, data);
  }

  /**
   * The fallback loop over the input block; `None` when an entry inside `[0, end]` lies
   * past the end of the block.
   */
  method DecodeFallback(items: seq<Item>, end: int, regs: seq<int>, data: Snapshot) returns (r: Option<Snapshot>)
    ensures r == FallbackFrom(items, end, regs, data)
  {
    var acc := data;
    var i := 0;
    while i < |items|
      invariant 0 <= i <= |items|
      invariant FallbackFrom(items[i..], end, regs, acc) == FallbackFrom(items, end, regs, data)
    {
      var item := items[i];
      assert items[i..][0] == item && items[i..][1..] == items[i + 1..];
      var address := item.address - 1;
      if address <= end && address >= INPUT_START {
        var raw := Index(regs, address - INPUT_START);
        if raw.None? {
          return None;
        }
        if raw.value != SENTINEL {
          acc := acc[HoldingId(item) := Reading(Word(raw.value), item.inputType.GetOr("holding"), address + 1)];
        }
      }
      i := i + 1;
    }
    return Some(acc);
  }

  /**
   * The holding and select section: the fixed holding block, or, when the read or the loop
   * raises, the fallback over the input block from what was stored so far.
   */
  method DecodeHolding(items: seq<Item>, read: ReadResult<int>, end: int, regs: seq<int>, data: Snapshot) returns (r: Option<Snapshot>)
    ensures r == HoldingPhase(items, read, end, regs, data)
  {
    if |items| == 0 || read.ErrorResponse? {
      return Some(data);
    }
    var acc := data;
    var raised := read.Raised?;
    if read.Response? {
      var hregs := read.values;
      var i := 0;
      while i < |items| && !raised
        invariant 0 <= i <= |items|
        decreases |items| - i, if raised then 0 else 1
        invariant !raised ==> HoldingFrom(items[i..], hregs, acc) == HoldingFrom(items, hregs, data)
        invariant raised ==> HoldingFrom(items, hregs, data) == (acc, true)
      {
        var item := items[i];
        assert items[i..][0] == item && items[i..][1..] == items[i + 1..];
        var address := item.address - 1;
        if address < |hregs| {
          var raw := Index(hregs, address);
          if raw.None? {
            raised := true;
          } else if raw.value != SENTINEL {
            acc := acc[HoldingId(item) := Reading(Word(raw.value), item.inputType.GetOr("holding"), address + 1)];
          }
        }
        if !raised {
          i := i + 1;
        }
      }
    }
    if raised {
      r := DecodeFallback(items, end, regs, acc);
    } else {
      r := Some(acc);
    }
  }

  /** The binary-sensor loop over the input block; ids already present are left alone. */
  method DecodeBinaries(items: seq<Item>, regs: seq<int>, data: Snapshot) returns (r: Option<Snapshot>)
    ensures r == BinaryFrom(items, regs, data)
  {
    var acc := data;
    var i := 0;
    while i < |items|
      invariant 0 <= i <= |items|
      invariant BinaryFrom(items[i..], regs, acc) == BinaryFrom(items, regs, data)
    {
      assert items[i..][0] == items[i] && items[i..][1..] == items[i + 1..];
      var next := DecodeBinary(acc, items[i], regs);
      if next.None? {
        return None;
      }
      acc := next.value;
      i := i + 1;
    }
    return Some(acc);
  }

  /** One binary sensor: stored with its raw word unless its id is taken or the word is the sentinel. */
  method DecodeBinary(acc: Snapshot, item: Item, regs: seq<int>) returns (r: Option<Snapshot>)
    ensures r == BinaryStep(acc, item, regs)
  {
    var address := item.address - 1;
    var uniqueId := BinaryId(item);
    if uniqueId in acc {
      return Some(acc);
    }
    var raw := Index(regs, address - INPUT_START);
    if raw.None? {
      return None;
    }
    if raw.value == SENTINEL {
      return Some(acc);
    }
    return Some(acc[uniqueId := Reading(Word(raw.value), item.inputType.GetOr("input"), address + 1)]);
  }

  /**
   * The reads and decoding of one connected cycle: the input block first (its failure is
   * fatal), then the optional discrete-input, coil and holding reads, then the binary
   * sensors. Nothing is stored; the coordinator keeps the snapshot only on success.
   */
  method ReadCycle(cat: Catalog, rr: ReadResult<int>, di: ReadResult<bool>, co: ReadResult<bool>, hr: ReadResult<int>)
    returns (r: Result<Snapshot, CycleError>, issued: seq<ReadRequest>)
    ensures r == Decode(cat, rr, di, co, hr)
    ensures issued == ReadsIssued(cat, rr)
  {
    if |cat.input| == 0 {
      return Failure(EmptyInputCatalog), [];
    }
    issued := [InputRequest(cat.input)];
    if !rr.Response? {
      return Failure(UpdateFailed), issued;
    }
    var regs := rr.values;
    var end := MaxPdu(cat.input);
    var d1 := DecodeInputs(cat.input, regs);
    if d1.None? {
      return Failure(UpdateFailed), issued;
    }
    issued := issued + OptionalBitRead(DiscreteInputs, cat.discrete);
    var d2 := DecodeBitTable(DiscreteInputs, cat.discrete, di, d1.value);
    issued := issued + OptionalBitRead(Coils, cat.coils);
    var d3 := DecodeBitTable(Coils, cat.coils, co, d2);
    var holding := cat.holding + cat.select;
    if |holding| > 0 {
      issued := issued + [HOLDING_REQUEST];
    }
    var d4 := DecodeHolding(holding, hr, end, regs, d3);
    if d4.None? {
      return Failure(UpdateFailed), issued;
    }
    var d5 := DecodeBinaries(cat.binary, regs, d4.value);
    if d5.None? {
      return Failure(UpdateFailed), issued;
    }
    return Success(d5.value), issued;
  }

  class DaikinAlthermaCoordinator {
    /** The register catalog the integration is built with. */
    const catalog: Catalog
    /**
     * Which id the edge tracker looks a binary sensor up under: `AsWritten` is the program
     * as it stands, `Corrected` the id the binary loop stores under.
     */
    const tracker: Tracker
    /** The snapshot of the last successful cycle. */
    var data: Snapshot
    /** A copy of `data` taken at the end of the last successful cycle. */
    var previousData: Snapshot
    /** When each binary sensor address last switched on. */
    var lastTriggered: map<int, Time>

    /** Timestamps only ever sit under `last_triggered_*` keys, so tracked values are always readings. */
    predicate Valid()
      reads this
    {
      StampsOnlyUnderLastTriggered(data) && StampsOnlyUnderLastTriggered(previousData)
    }

    constructor(catalog: Catalog, tracker: Tracker)
      ensures this.catalog == catalog && this.tracker == tracker
      ensures data == map[] && previousData == map[] && lastTriggered == map[]
      ensures Valid()
    {
      this.catalog := catalog;
      this.tracker := tracker;
      data := map[];
      previousData := map[];
      lastTriggered := map[];
    }

    /**
     * The edge tracker, run on `data` after it was assigned: each rising edge sets the
     * address's timestamp to `now`, and every address with a timestamp is republished in
     * `data`.
     */
    method TrackEdges(now: Time)
      requires Valid()
      requires TrackIdsWellFormed(tracker, catalog.binary)
      modifies this
      ensures previousData == old(previousData)
      ensures (data, lastTriggered) == TrackFrom(tracker, catalog.binary, old(data), previousData, old(lastTriggered), now)
      ensures Valid()
    {
      var bs := catalog.binary;
      var i := 0;
      while i < |bs|
        invariant 0 <= i <= |bs|
        invariant previousData == old(previousData)
        invariant Valid()
        invariant TrackIdsWellFormed(tracker, bs[i..])
        invariant TrackFrom(tracker, bs[i..], data, previousData, lastTriggered, now)
          == TrackFrom(tracker, bs, old(data), previousData, old(lastTriggered), now)
      {
        var binary := bs[i];
        assert bs[i..][0] == binary && bs[i..][1..] == bs[i + 1..];
        var uniqueId := tracker.Key(binary);
        var currentVal := ValueAt(data, uniqueId);
        var previousVal := ValueAt(previousData, uniqueId);
        if IsOn(binary.deviceClass, currentVal) && !IsOn(binary.deviceClass, previousVal) {
          lastTriggered := lastTriggered[binary.address := now];
        }
        if binary.address in lastTriggered {
          LastTriggeredKeyIsOne(binary.address);
          data := data[LastTriggeredKey(binary.address) := Stamp(lastTriggered[binary.address])];
        }
        i := i + 1;
      }
    }

    /**
     * One update cycle. `connected` is the outcome of (re)connecting, and the read results
     * are what the device answers to the requests in `issued`. A failed cycle leaves the
     * object as it was; a successful one stores the decoded snapshot with its
     * `last_triggered_*` keys in both `data` and `previousData`.
     */
    method UpdateData(connected: bool, rr: ReadResult<int>, di: ReadResult<bool>, co: ReadResult<bool>, hr: ReadResult<int>, now: Time)
      returns (r: Result<Snapshot, CycleError>, issued: seq<ReadRequest>)
      requires Valid()
      requires TrackIdsWellFormed(tracker, catalog.binary)
      modifies this
      ensures Valid()
      ensures !connected ==> r == Failure(UpdateFailed) && issued == []
      ensures connected ==> issued == ReadsIssued(catalog, rr)
      ensures r.Failure? ==> unchanged(this)
      ensures connected && Decode(catalog, rr, di, co, hr).Failure? ==> r == Failure(Decode(catalog, rr, di, co, hr).error)
      ensures connected && Decode(catalog, rr, di, co, hr).Success? ==>
        var (d, lt) := TrackFrom(tracker, catalog.binary, Decode(catalog, rr, di, co, hr).value, old(previousData), old(lastTriggered), now);
        r == Success(d) && data == d && previousData == d && lastTriggered == lt
    {
      if !connected {
        return Failure(UpdateFailed), [];
      }
      var decoded;
      decoded, issued := ReadCycle(catalog, rr, di, co, hr);
      if decoded.Failure? {
        return Failure(decoded.error), issued;
      }
      data := decoded.value;
      TrackEdges(now);
      previousData := data;
      r := Success(data);
    }
  }
}
