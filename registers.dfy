/**
 * The register catalog and the snapshot the coordinator publishes.
 *
 * A catalog entry is a Python dict whose optional keys the code reads with
 * `item.get(key, default)`; each optional key is an `Option` here, and every reader applies
 * its own default exactly where the code does. Addresses are the catalog's register
 * numbers, which the coordinator treats as 1-based.
 */
module Registers {
  import opened Wrappers

  const DOMAIN: string := "ha_daikin_altherma4_modbus"

  /** The raw word the heat pump reports for "not applicable / no data". */
  const SENTINEL: int := 32766

  /** A Python number from the catalog: `1` and `1.0` behave differently when a string is multiplied by them. */
  datatype PyNum = PyInt(i: int) | PyFloat(f: real) {
    function AsReal(): real {
      match this
      case PyInt(i) => i as real
      case PyFloat(f) => f
    }
  }

  /** An int or str: the key type of the catalog's `enum_map` dicts, which mix both. */
  datatype Scalar = Int(i: int) | Str(s: string)

  /** An `enum_map` as its `items()`, in insertion order. */
  type EnumMap = seq<(Scalar, string)>

  /** Keys of a dict are distinct. */
  predicate DistinctKeys(m: EnumMap) {
    forall i, j :: 0 <= i < j < |m| ==> m[i].0 != m[j].0
  }

  predicate HasKey(m: EnumMap, k: Scalar) {
    exists i :: 0 <= i < |m| && m[i].0 == k
  }

  /** `enum_map.get(k)`. */
  function LookupKey(m: EnumMap, k: Scalar): (r: Option<string>)
    ensures r.Some? <==> HasKey(m, k)
    ensures r.Some? ==> exists i :: 0 <= i < |m| && m[i] == (k, r.value)
  {
    if |m| == 0 then None
    else if m[0].0 == k then Some(m[0].1)
    else
      var r := LookupKey(m[1..], k);
      assert r.Some? ==> exists i :: 0 <= i < |m[1..]| && m[1..][i] == (k, r.value);
      r
  }

  /** `if enum_map:` — a missing or empty map is false. */
  predicate EnumEnabled(m: Option<EnumMap>) {
    m.Some? && |m.value| > 0
  }

  /** The values of an `enum_map`, in insertion order: `list(enum_map.values())`. */
  function Labels(m: EnumMap): (r: seq<string>)
    ensures |r| == |m|
    ensures forall i :: 0 <= i < |m| ==> r[i] == m[i].1
  {
    if |m| == 0 then [] else [m[0].1] + Labels(m[1..])
  }

  /** One catalog entry. */
  datatype Item = Item(
    address: int,
    count: Option<int>,
    scale: Option<PyNum>,
    inputType: Option<string>,
    uniqueId: Option<string>,
    deviceClass: Option<string>,
    enumMap: Option<EnumMap>,
    minValue: Option<PyNum>,
    maxValue: Option<PyNum>,
    step: Option<PyNum>)

  /** The catalog the coordinator polls, one list per Modbus table. */
  datatype Catalog = Catalog(
    input: seq<Item>,
    holding: seq<Item>,
    select: seq<Item>,
    discrete: seq<Item>,
    coils: seq<Item>,
    binary: seq<Item>)

  /** A wall-clock instant, supplied by the caller. */
  type Time = int

  /** A register value: one word, or the list of words of a multi-word entry. */
  datatype Value = Word(w: int) | Words(ws: seq<int>)

  /** A snapshot value: a `{value, input_type, address}` dict, or a bare `last_triggered_*` timestamp. */
  datatype Entry = Reading(value: Value, inputType: string, address: int) | Stamp(at: Time)

  type Snapshot = map<string, Entry>

  /** `data.get(id)` followed by `.get("value")`: a timestamp has no `.get` (AttributeError). */
  datatype Lookup = NoEntry | Val(v: Value) | NotADict

  function Get(data: Snapshot, id: string): (r: Lookup)
    ensures r.NoEntry? <==> id !in data
  {
    if id !in data then NoEntry
    else match data[id]
      case Reading(v, _, _) => Val(v)
      case Stamp(_) => NotADict
  }

  /** The state an entity reports: nothing, a number, or a text label. */
  datatype State = Unknown | Number(x: real) | Text(s: string)

  /** Reading a 16-bit word as two's complement: `v - 65536` when `v > 32767`. */
  function Signed16(w: int): int {
    if w > 32767 then w - 65536 else w
  }

  /** Writing a signed value as a 16-bit word: `65536 + v` when `v < 0`. */
  function Unsigned16(v: int): int {
    if v < 0 then 65536 + v else v
  }

  /** Every word decodes into the signed 16-bit range, congruent to itself modulo 65536. */
  lemma Signed16Range(w: int)
    requires 0 <= w <= 65535
    ensures -32768 <= Signed16(w) <= 32767
    ensures (Signed16(w) - w) % 65536 == 0
  {
  }

  /** Encoding then decoding a signed 16-bit value gives it back, and the encoding is a word. */
  lemma SignedRoundTrip(v: int)
    requires -32768 <= v <= 32767
    ensures 0 <= Unsigned16(v) <= 65535
    ensures Signed16(Unsigned16(v)) == v
  {
  }

  /** Decoding then encoding a word gives it back. */
  lemma UnsignedRoundTrip(w: int)
    requires 0 <= w <= 65535
    ensures Unsigned16(Signed16(w)) == w
  {
  }
}
