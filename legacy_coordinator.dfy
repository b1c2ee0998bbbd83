/**
 * The older coordinator at the repository root. It reads one input block from the lowest
 * to the highest catalog address, without shifting addresses to 0-based and without the
 * 32766 sentinel, and stores each input register and binary sensor under its integer
 * address; the edge tracker adds `last_triggered_<address>` string keys to the same dict.
 */
module LegacyCoordinator {
  import opened Wrappers
  import opened Decimal
  import opened Python
  import opened Registers
  import opened Transport
  import opened PollCycle

  /** A key of the dict: an integer register address, or a `last_triggered_*` string. */
  datatype Key = Addr(a: int) | Named(s: string)

  /** A value of the dict: a register reading, or a timestamp. */
  datatype Slot = Raw(v: Value) | At(t: Time)

  type LegacySnapshot = map<Key, Slot>

  /** `min(addresses)`, on the addresses as written in the catalog. */
  function LowestAddress(items: seq<Item>): (r: int)
    requires |items| > 0
    ensures forall i :: 0 <= i < |items| ==> r <= items[i].address
    ensures exists i :: 0 <= i < |items| && items[i].address == r
  {
    var m := MinPdu(items);
    assert forall i :: 0 <= i < |items| ==> items[i].address == Pdu(items[i]) + 1;
    m + 1
  }

  /** `max(addresses)`. */
  function HighestAddress(items: seq<Item>): (r: int)
    requires |items| > 0
    ensures forall i :: 0 <= i < |items| ==> items[i].address <= r
    ensures exists i :: 0 <= i < |items| && items[i].address == r
  {
    var m := MaxPdu(items);
    assert forall i :: 0 <= i < |items| ==> items[i].address == Pdu(items[i]) + 1;
    m + 1
  }

  /** The one read of a cycle: the input registers from the lowest to the highest address. */
  function LegacyRequest(inputs: seq<Item>): ReadRequest
    requires |inputs| > 0
  {
    ReadRequest(ReadInputRegisters, LowestAddress(inputs), HighestAddress(inputs) - LowestAddress(inputs) + 1)
  }

  /** One entry: a single word or a slice of `count` words, stored under its address. `None` is an IndexError. */
  function LegacyStep(acc: LegacySnapshot, item: Item, regs: seq<int>, start: int): Option<LegacySnapshot> {
    var off := item.address - start;
    if CountOf(item) == 1 then
      match Index(regs, off)
      case None => None
      case Some(raw) => Some(acc[Addr(item.address) := Raw(Word(raw))])
    else Some(acc[Addr(item.address) := Raw(Words(Slice(regs, off, off + CountOf(item))))])
  }

  function LegacyFrom(items: seq<Item>, regs: seq<int>, start: int, acc: LegacySnapshot): (r: Option<LegacySnapshot>)
    ensures r.Some? ==> forall k :: k in acc ==> k in r.value
    decreases |items|
  {
    if |items| == 0 then Some(acc)
    else match LegacyStep(acc, items[0], regs, start)
      case None => None
      case Some(next) => LegacyFrom(items[1..], regs, start, next)
  }

  /** The dict of one cycle before the tracker runs: input registers, then binary sensors. */
  function LegacyDecode(inputs: seq<Item>, binaries: seq<Item>, rr: ReadResult<int>): Result<LegacySnapshot, CycleError> {
    if |inputs| == 0 then Failure(EmptyInputCatalog)
    else match rr
      case Response(regs) =>
        (match LegacyFrom(inputs + binaries, regs, LowestAddress(inputs), map[])
         case None => Failure(UpdateFailed)
         case Some(m) => Success(m))
      case _ => Failure(UpdateFailed)
  }

  /** `data.get(address)`, when it is a register reading. */
  function LegacyValueAt(m: LegacySnapshot, address: int): Option<Value> {
    if Addr(address) in m && m[Addr(address)].Raw? then Some(m[Addr(address)].v) else None
  }

  predicate LegacyRisingEdge(b: Item, data: LegacySnapshot, prev: LegacySnapshot) {
    IsOn(b.deviceClass, LegacyValueAt(data, b.address)) && !IsOn(b.deviceClass, LegacyValueAt(prev, b.address))
  }

  function LegacyTrackStep(b: Item, data: LegacySnapshot, prev: LegacySnapshot, lt: map<int, Time>, now: Time): (LegacySnapshot, map<int, Time>) {
    var lt' := if LegacyRisingEdge(b, data, prev) then lt[b.address := now] else lt;
    var data' := if b.address in lt' then data[Named(LastTriggeredKey(b.address)) := At(lt'[b.address])] else data;
    (data', lt')
  }

  function LegacyTrackFrom(bs: seq<Item>, data: LegacySnapshot, prev: LegacySnapshot, lt: map<int, Time>, now: Time): (LegacySnapshot, map<int, Time>)
    decreases |bs|
  {
    if |bs| == 0 then (data, lt)
    else
      var (d, l) := LegacyTrackStep(bs[0], data, prev, lt, now);
      LegacyTrackFrom(bs[1..], d, prev, l, now)
  }

  /** The decoding loop over `inputs + binaries`. */
  method LegacyDecodeLoop(items: seq<Item>, regs: seq<int>, start: int) returns (r: Option<LegacySnapshot>)
    ensures r == LegacyFrom(items, regs, start, map[])
  {
    var data: LegacySnapshot := map[];
    var i := 0;
    while i < |items|
      invariant 0 <= i <= |items|
      invariant LegacyFrom(items[i..], regs, start, data) == LegacyFrom(items, regs, start, map[])
    {
      var item := items[i];
      assert items[i..][0] == item && items[i..][1..] == items[i + 1..];
      var address := item.address;
      var regCount := item.count.GetOr(1);
      if regCount == 1 {
        var raw := Index(regs, address - start);
        if raw.None? {
          return None;
        }
        data := data[Addr(address) := Raw(Word(raw.value))];
      } else {
        data := data[Addr(address) := Raw(Words(Slice(regs, address - start, address - start + regCount)))];
      }
      i := i + 1;
    }
    return Some(data);
  }

  class DaikinAlthermaCoordinator {
    const inputs: seq<Item>
    const binaries: seq<Item>
    var data: LegacySnapshot
    var previousData: LegacySnapshot
    var lastTriggered: map<int, Time>

    constructor(inputs: seq<Item>, binaries: seq<Item>)
      ensures this.inputs == inputs && this.binaries == binaries
      ensures data == map[] && previousData == map[] && lastTriggered == map[]
    {
      this.inputs := inputs;
      this.binaries := binaries;
      data := map[];
      previousData := map[];
      lastTriggered := map[];
    }

    /** The tracker loop, updating `data` and `lastTriggered` in place. */
    method TrackEdges(now: Time)
      modifies this
      ensures previousData == old(previousData)
      ensures (data, lastTriggered) == LegacyTrackFrom(binaries, old(data), previousData, old(lastTriggered), now)
    {
      var i := 0;
      while i < |binaries|
        invariant 0 <= i <= |binaries|
        invariant previousData == old(previousData)
        invariant LegacyTrackFrom(binaries[i..], data, previousData, lastTriggered, now)
          == LegacyTrackFrom(binaries, old(data), previousData, old(lastTriggered), now)
      {
        var binary := binaries[i];
        assert binaries[i..][0] == binary && binaries[i..][1..] == binaries[i + 1..];
        var address := binary.address;
        if IsOn(binary.deviceClass, LegacyValueAt(data, address)) && !IsOn(binary.deviceClass, LegacyValueAt(previousData, address)) {
          lastTriggered := lastTriggered[address := now];
        }
        if address in lastTriggered {
          data := data[Named(LastTriggeredKey(address)) := At(lastTriggered[address])];
        }
        i := i + 1;
      }
    }

    /**
     * One update cycle: a failed connection or read leaves the object as it was; a
     * successful one stores the decoded dict with its `last_triggered_*` keys in both
     * `data` and `previousData`.
     */
    method Update(connected: bool, rr: ReadResult<int>, now: Time)
      returns (r: Result<LegacySnapshot, CycleError>, issued: seq<ReadRequest>)
      modifies this
      ensures !connected ==> r == Failure(UpdateFailed) && issued == []
      ensures connected ==> issued == if |inputs| == 0 then [] else [LegacyRequest(inputs)]
      ensures r.Failure? ==> unchanged(this)
      ensures connected && LegacyDecode(inputs, binaries, rr).Failure? ==> r == Failure(LegacyDecode(inputs, binaries, rr).error)
      ensures connected && LegacyDecode(inputs, binaries, rr).Success? ==>
        var (d, lt) := LegacyTrackFrom(binaries, LegacyDecode(inputs, binaries, rr).value, old(previousData), old(lastTriggered), now);
        r == Success(d) && data == d && previousData == d && lastTriggered == lt
    {
      if !connected {
        return Failure(UpdateFailed), [];
      }
      if |inputs| == 0 {
        return Failure(EmptyInputCatalog), [];
      }
      var start := LowestAddress(inputs);
      issued := [LegacyRequest(inputs)];
      if !rr.Response? {
        return Failure(UpdateFailed), issued;
      }
      var decoded := LegacyDecodeLoop(inputs + binaries, rr.values, start);
      if decoded.None? {
        return Failure(UpdateFailed), issued;
      }
      data := decoded.value;
      TrackEdges(now);
      previousData := data;
      r := Success(data);
    }
  }

  // ---------------------------------------------------------------------------------
  // Properties

  /** A decoding loop whose entries all lie inside the block never raises. */
  lemma {:induction false} LegacyFromSucceeds(items: seq<Item>, regs: seq<int>, start: int, acc: LegacySnapshot)
    requires forall i :: 0 <= i < |items| ==> 0 <= items[i].address - start < |regs|
    ensures LegacyFrom(items, regs, start, acc).Some?
    decreases |items|
  {
    if |items| > 0 {
      var next := LegacyStep(acc, items[0], regs, start);
      assert next.Some?;
      LegacyFromSucceeds(items[1..], regs, start, next.value);
    }
  }

  /**
   * When the device returns the whole requested block and every binary sensor lies between
   * the lowest and the highest input address, the cycle succeeds.
   */
  lemma LegacyFullBlockSucceeds(inputs: seq<Item>, binaries: seq<Item>, regs: seq<int>)
    requires |inputs| > 0
    requires |regs| == LegacyRequest(inputs).count
    requires forall i :: 0 <= i < |binaries| ==> LowestAddress(inputs) <= binaries[i].address <= HighestAddress(inputs)
    ensures LegacyDecode(inputs, binaries, Response(regs)).Success?
  {
    var items := inputs + binaries;
    forall i | 0 <= i < |items| ensures 0 <= items[i].address - LowestAddress(inputs) < |regs| {
      if i >= |inputs| {
        assert items[i] == binaries[i - |inputs|];
      }
    }
    LegacyFromSucceeds(items, regs, LowestAddress(inputs), map[]);
  }

  /** Without a sentinel, every entry of a successful loop is stored under its address. */
  lemma {:induction false} LegacyEveryEntryStored(items: seq<Item>, regs: seq<int>, start: int, acc: LegacySnapshot)
    requires LegacyFrom(items, regs, start, acc).Some?
    ensures forall i :: 0 <= i < |items| ==> Addr(items[i].address) in LegacyFrom(items, regs, start, acc).value
    decreases |items|
  {
    if |items| > 0 {
      var next := LegacyStep(acc, items[0], regs, start).value;
      LegacyEveryEntryStored(items[1..], regs, start, next);
      forall i | 1 <= i < |items| ensures Addr(items[i].address) in LegacyFrom(items, regs, start, acc).value {
        assert items[i] == items[1..][i - 1];
      }
    }
  }

  lemma {:induction false} LegacyFromFrame(items: seq<Item>, regs: seq<int>, start: int, acc: LegacySnapshot, k: Key)
    requires LegacyFrom(items, regs, start, acc).Some?
    requires forall i :: 0 <= i < |items| ==> Addr(items[i].address) != k
    ensures var m := LegacyFrom(items, regs, start, acc).value;
      (k in m <==> k in acc) && (k in acc ==> m[k] == acc[k])
    decreases |items|
  {
    if |items| > 0 {
      LegacyFromFrame(items[1..], regs, start, LegacyStep(acc, items[0], regs, start).value, k);
    }
  }

  /** The value stored for entry `it`: the word at its offset, or the slice of `count` words from there. */
  ghost predicate LegacyStored(it: Item, regs: seq<int>, start: int, m: LegacySnapshot) {
    var off := it.address - start;
    Addr(it.address) in m &&
    if CountOf(it) == 1 then
      Index(regs, off).Some? && m[Addr(it.address)] == Raw(Word(Index(regs, off).value))
    else
      m[Addr(it.address)] == Raw(Words(Slice(regs, off, off + CountOf(it))))
  }

  lemma LegacyFirstEntryStored(items: seq<Item>, regs: seq<int>, start: int, acc: LegacySnapshot)
    requires 0 < |items|
    requires LegacyFrom(items, regs, start, acc).Some?
    requires forall i :: 0 < i < |items| ==> items[i].address != items[0].address
    ensures LegacyStored(items[0], regs, start, LegacyFrom(items, regs, start, acc).value)
  {
    var next := LegacyStep(acc, items[0], regs, start).value;
    forall i | 0 <= i < |items[1..]| ensures Addr(items[1..][i].address) != Addr(items[0].address) {
      assert items[1..][i] == items[i + 1];
    }
    LegacyFromFrame(items[1..], regs, start, next, Addr(items[0].address));
  }

  /**
   * Two entries at the same address share one key, and the later one wins: the value under
   * an address is what the last entry with that address read, a word or a slice.
   */
  lemma {:induction false} LegacyLastEntryWins(items: seq<Item>, regs: seq<int>, start: int, acc: LegacySnapshot, j: int)
    requires 0 <= j < |items|
    requires LegacyFrom(items, regs, start, acc).Some?
    requires forall i :: j < i < |items| ==> items[i].address != items[j].address
    ensures LegacyStored(items[j], regs, start, LegacyFrom(items, regs, start, acc).value)
    decreases |items|
  {
    if j == 0 {
      LegacyFirstEntryStored(items, regs, start, acc);
    } else {
      var next := LegacyStep(acc, items[0], regs, start).value;
      forall i | j - 1 < i < |items[1..]| ensures items[1..][i].address != items[1..][j - 1].address {
        assert items[1..][i] == items[i + 1];
      }
      assert items[1..][j - 1] == items[j];
      LegacyLastEntryWins(items[1..], regs, start, next, j - 1);
    }
  }

  /** A binary sensor at address `a` went from off to on. */
  ghost predicate LegacyEdgeAt(bs: seq<Item>, data: LegacySnapshot, prev: LegacySnapshot, a: int) {
    exists i :: 0 <= i < |bs| && bs[i].address == a && LegacyRisingEdge(bs[i], data, prev)
  }

  lemma LegacyEdgeAtTail(bs: seq<Item>, data: LegacySnapshot, prev: LegacySnapshot, a: int)
    requires |bs| > 0
    ensures LegacyEdgeAt(bs, data, prev, a) <==>
      (bs[0].address == a && LegacyRisingEdge(bs[0], data, prev)) || LegacyEdgeAt(bs[1..], data, prev, a)
  {
    if LegacyEdgeAt(bs, data, prev, a) && !(bs[0].address == a && LegacyRisingEdge(bs[0], data, prev)) {
      var i :| 0 <= i < |bs| && bs[i].address == a && LegacyRisingEdge(bs[i], data, prev);
      assert bs[1..][i - 1] == bs[i];
    }
    if LegacyEdgeAt(bs[1..], data, prev, a) {
      var i :| 0 <= i < |bs[1..]| && bs[1..][i].address == a && LegacyRisingEdge(bs[1..][i], data, prev);
      assert bs[i + 1] == bs[1..][i];
    }
  }

  lemma LegacyEdgeAtStamped(bs: seq<Item>, data: LegacySnapshot, prev: LegacySnapshot, a: int, key: string, stamp: Time)
    ensures LegacyEdgeAt(bs, data[Named(key) := At(stamp)], prev, a) <==> LegacyEdgeAt(bs, data, prev, a)
  {
    forall i | 0 <= i < |bs|
      ensures LegacyRisingEdge(bs[i], data[Named(key) := At(stamp)], prev) <==> LegacyRisingEdge(bs[i], data, prev)
    {
      assert LegacyValueAt(data[Named(key) := At(stamp)], bs[i].address) == LegacyValueAt(data, bs[i].address);
    }
  }

  /**
   * The timestamps after a cycle: an address gets `now` exactly when one of its binary
   * sensors went from off to on, and otherwise keeps what it had; none is ever dropped.
   */
  lemma {:induction false} LegacyTrackedTimes(bs: seq<Item>, data: LegacySnapshot, prev: LegacySnapshot, lt: map<int, Time>, now: Time, a: int)
    ensures var lt' := LegacyTrackFrom(bs, data, prev, lt, now).1;
      (a in lt' <==> a in lt || LegacyEdgeAt(bs, data, prev, a))
      && (LegacyEdgeAt(bs, data, prev, a) ==> lt'[a] == now)
      && (!LegacyEdgeAt(bs, data, prev, a) && a in lt ==> lt'[a] == lt[a])
    decreases |bs|
  {
    if |bs| > 0 {
      var (d, l) := LegacyTrackStep(bs[0], data, prev, lt, now);
      LegacyTrackedTimes(bs[1..], d, prev, l, now, a);
      LegacyEdgeAtTail(bs, data, prev, a);
      if bs[0].address in l {
        LegacyEdgeAtStamped(bs[1..], data, prev, a, LastTriggeredKey(bs[0].address), l[bs[0].address]);
      }
    }
  }

  lemma {:induction false} LegacyTrackFromFrame(bs: seq<Item>, data: LegacySnapshot, prev: LegacySnapshot, lt: map<int, Time>, now: Time, a: int)
    requires forall i :: 0 <= i < |bs| ==> bs[i].address != a
    ensures var (d', lt') := LegacyTrackFrom(bs, data, prev, lt, now);
      var k := Named(LastTriggeredKey(a));
      (a in lt' <==> a in lt) && (a in lt ==> lt'[a] == lt[a])
      && (k in d' <==> k in data) && (k in data ==> d'[k] == data[k])
    decreases |bs|
  {
    if |bs| > 0 {
      var (d, l) := LegacyTrackStep(bs[0], data, prev, lt, now);
      if LastTriggeredKey(bs[0].address) == LastTriggeredKey(a) {
        PrefixedIdsInjective(LAST_TRIGGERED, bs[0].address, a);
      }
      LegacyTrackFromFrame(bs[1..], d, prev, l, now, a);
    }
  }

  /** Every binary sensor address with a timestamp is published under `last_triggered_<address>`. */
  lemma {:induction false} LegacyTimesPublished(bs: seq<Item>, data: LegacySnapshot, prev: LegacySnapshot, lt: map<int, Time>, now: Time, j: int)
    requires 0 <= j < |bs|
    ensures var (d', lt') := LegacyTrackFrom(bs, data, prev, lt, now);
      var a := bs[j].address;
      a in lt' ==> Named(LastTriggeredKey(a)) in d' && d'[Named(LastTriggeredKey(a))] == At(lt'[a])
    decreases |bs|
  {
    var (d, l) := LegacyTrackStep(bs[0], data, prev, lt, now);
    var a := bs[j].address;
    if exists i :: 1 <= i < |bs| && bs[i].address == a {
      var i :| 1 <= i < |bs| && bs[i].address == a;
      assert bs[1..][i - 1] == bs[i];
      LegacyTimesPublished(bs[1..], d, prev, l, now, i - 1);
    } else {
      assert bs[0].address == a;
      forall i | 0 <= i < |bs[1..]| ensures bs[1..][i].address != a {
        assert bs[1..][i] == bs[i + 1];
      }
      LegacyTrackFromFrame(bs[1..], d, prev, l, now, a);
    }
  }
}
