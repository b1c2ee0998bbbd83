/**
 * The select platform (custom_components select): a drop-down per select register that has
 * an enum map. The options are the map's labels in insertion order, the current option is
 * the label of the register's word, and choosing an option writes the first key carrying
 * that label to the register's catalog address.
 */
module Select {
  import opened Wrappers
  import opened Decimal
  import opened Python
  import opened Registers
  import opened Transport

  datatype SelectEntity = SelectEntity(uniqueId: string, address: int, enumMap: EnumMap, options: seq<string>)

  /** The entity the setup builds for an entry with a non-empty enum map; ids default as for numbers. */
  function SelectFor(item: Item): (e: SelectEntity)
    requires EnumEnabled(item.enumMap)
    ensures e.address == item.address && e.enumMap == item.enumMap.value
    ensures e.options == Labels(item.enumMap.value)
    ensures e.uniqueId != []
  {
    var u := item.uniqueId.GetOr(DOMAIN + "_holding_" + IntToString(item.address));
    SelectEntity(
      if u == [] then DOMAIN + "_" + IntToString(item.address) else u,
      item.address, item.enumMap.value, Labels(item.enumMap.value))
  }

  /** The entities of the setup: one per entry with a truthy enum map, in catalog order. */
  function SelectsOf(items: seq<Item>): seq<SelectEntity> {
    if |items| == 0 then []
    else (if EnumEnabled(items[0].enumMap) then [SelectFor(items[0])] else []) + SelectsOf(items[1..])
  }

  /** The setup loop, which skips entries without an enum map. */
  method SetupSelects(items: seq<Item>) returns (entities: seq<SelectEntity>)
    ensures entities == SelectsOf(items)
  {
    entities := [];
    for i := 0 to |items|
      invariant entities + SelectsOf(items[i..]) == SelectsOf(items)
    {
      assert items[i..][0] == items[i] && items[i..][1..] == items[i + 1..];
      if EnumEnabled(items[i].enumMap) {
        entities := entities + [SelectFor(items[i])];
      }
    }
    assert items[|items|..] == [];
  }

  /**
   * `current_option`: no entry, no option; the label of the word when the map has it as a
   * key, and no option otherwise. A list is unhashable (TypeError) and a timestamp has no
   * `.get` (AttributeError).
   */
  function CurrentOption(e: SelectEntity, data: Snapshot): Result<Option<string>, PyError> {
    match Get(data, e.uniqueId)
    case NoEntry => Success(None)
    case NotADict => Failure(AttributeError)
    case Val(Words(_)) => Failure(TypeError)
    case Val(Word(w)) => Success(LookupKey(e.enumMap, Int(w)))
  }

  /** The first key, in insertion order, whose label is `option`. */
  function KeyFor(m: EnumMap, option: string): (r: Option<Scalar>)
    ensures r.None? <==> option !in Labels(m)
    ensures r.Some? ==> exists i :: 0 <= i < |m| && m[i] == (r.value, option) && FirstLabelAt(m, option, i)
  {
    if |m| == 0 then None
    else if m[0].1 == option then Some(m[0].0)
    else
      var r := KeyFor(m[1..], option);
      if r.Some? then
        var i :| 0 <= i < |m[1..]| && m[1..][i] == (r.value, option) && FirstLabelAt(m[1..], option, i);
        assert FirstLabelAt(m, option, i + 1) by {
          forall j | 1 <= j < i + 1 ensures m[j].1 != option {
            assert m[j] == m[1..][j - 1];
          }
        }
        r
      else r
  }

  /** No entry before index `i` carries the label `option`. */
  predicate FirstLabelAt(m: EnumMap, option: string, i: int) {
    forall j :: 0 <= j < i && j < |m| ==> m[j].1 != option
  }

  /**
   * `async_select_option`: the loop over the map's items writes the first matching key,
   * requests a refresh and stops; a write that raises propagates without the refresh. An
   * option no label matches writes nothing.
   */
  method SelectOption(link: ModbusLink, e: SelectEntity, option: string, writeRaises: bool) returns (r: Result<(), PyError>)
    modifies link
    ensures KeyFor(e.enumMap, option).None? ==> r == Success(()) && unchanged(link)
    ensures KeyFor(e.enumMap, option).Some? ==>
      link.writes == old(link.writes) + [RegisterWrite(e.address, KeyFor(e.enumMap, option).value)]
      && (writeRaises ==> r == Failure(ModbusException) && link.refreshRequests == old(link.refreshRequests))
      && (!writeRaises ==> r == Success(()) && link.refreshRequests == old(link.refreshRequests) + 1)
  {
    var m := e.enumMap;
    var i := 0;
    while i < |m|
      invariant 0 <= i <= |m|
      invariant KeyFor(m[i..], option) == KeyFor(m, option)
      invariant unchanged(link)
    {
      assert m[i..][0] == m[i] && m[i..][1..] == m[i + 1..];
      if m[i].1 == option {
        link.writes := link.writes + [RegisterWrite(e.address, m[i].0)];
        if writeRaises {
          return Failure(ModbusException);
        }
        link.refreshRequests := link.refreshRequests + 1;
        return Success(());
      }
      i := i + 1;
    }
    assert m[|m|..] == [];
    return Success(());
  }

  // ---------------------------------------------------------------------------------
  // Properties

  /** Labels of a dict are distinct. */
  predicate DistinctLabels(m: EnumMap) {
    forall i, j :: 0 <= i < j < |m| ==> m[i].1 != m[j].1
  }

  /** An entity exists for exactly the entries with a non-empty enum map, in catalog order. */
  lemma {:induction false} SetupKeepsEnumEntries(items: seq<Item>)
    ensures forall i :: 0 <= i < |items| && EnumEnabled(items[i].enumMap) ==> SelectFor(items[i]) in SelectsOf(items)
    ensures forall e :: e in SelectsOf(items) ==>
      exists i :: 0 <= i < |items| && EnumEnabled(items[i].enumMap) && e == SelectFor(items[i])
  {
    if |items| > 0 {
      SetupKeepsEnumEntries(items[1..]);
      var head := if EnumEnabled(items[0].enumMap) then [SelectFor(items[0])] else [];
      assert SelectsOf(items) == head + SelectsOf(items[1..]);
      forall i | 0 <= i < |items| && EnumEnabled(items[i].enumMap)
        ensures SelectFor(items[i]) in SelectsOf(items)
      {
        if i > 0 {
          assert items[i] == items[1..][i - 1];
        }
      }
      forall e | e in SelectsOf(items)
        ensures exists i :: 0 <= i < |items| && EnumEnabled(items[i].enumMap) && e == SelectFor(items[i])
      {
        if e !in head {
          var k :| 0 <= k < |items[1..]| && EnumEnabled(items[1..][k].enumMap) && e == SelectFor(items[1..][k]);
          assert items[k + 1] == items[1..][k];
        }
      }
    }
  }

  /** An entity offers exactly its enum map's labels, and each option selects a key. */
  lemma OptionsAreSelectable(e: SelectEntity, item: Item, option: string)
    requires EnumEnabled(item.enumMap) && e == SelectFor(item)
    ensures option in e.options <==> KeyFor(e.enumMap, option).Some?
  {
  }

  /** With distinct keys, the key an option writes carries that option as its label. */
  lemma WrittenKeyShowsOption(m: EnumMap, option: string)
    requires DistinctKeys(m)
    requires KeyFor(m, option).Some?
    ensures LookupKey(m, KeyFor(m, option).value) == Some(option)
  {
    var k := KeyFor(m, option).value;
    var i :| 0 <= i < |m| && m[i] == (k, option) && FirstLabelAt(m, option, i);
    var r := LookupKey(m, k);
    var j :| 0 <= j < |m| && m[j] == (k, r.value);
    assert i == j;
  }

  /**
   * With distinct labels, choosing the option the entity shows writes back the word it was
   * read from.
   */
  lemma SelectingCurrentOptionWritesWord(e: SelectEntity, data: Snapshot, w: int)
    requires DistinctLabels(e.enumMap)
    requires Get(data, e.uniqueId) == Val(Word(w))
    requires CurrentOption(e, data).Success? && CurrentOption(e, data).value.Some?
    ensures KeyFor(e.enumMap, CurrentOption(e, data).value.value) == Some(Int(w))
  {
    var m := e.enumMap;
    var option := CurrentOption(e, data).value.value;
    assert LookupKey(m, Int(w)) == Some(option);
    var i :| 0 <= i < |m| && m[i] == (Int(w), option);
    assert Labels(m)[i] == option;
    var k := KeyFor(m, option).value;
    var j :| 0 <= j < |m| && m[j] == (k, option) && FirstLabelAt(m, option, j);
    assert i == j;
  }

  /**
   * The operation-mode select of the catalog: its enum map carries a stray
   * `"translation_key"` entry, whose value is offered as a fourth option and, when chosen,
   * writes the string key to register 2.
   */
  lemma OperationModeSelectOffersTranslationKey(item: Item)
    requires item.address == 2
    requires item.enumMap == Some([(Int(0), "Auto"), (Int(1), "Heating"), (Int(2), "Cooling"), (Str("translation_key"), "2")])
    ensures SelectFor(item).options == ["Auto", "Heating", "Cooling", "2"]
    ensures KeyFor(SelectFor(item).enumMap, "2") == Some(Str("translation_key"))
  {
    var m := item.enumMap.value;
    assert Labels(m) == ["Auto", "Heating", "Cooling", "2"];
    assert m[3] == (Str("translation_key"), "2");
    assert FirstLabelAt(m, "2", 3);
  }
}
