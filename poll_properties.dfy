/**
 * Properties of one poll cycle: where each snapshot entry comes from, which failures are
 * fatal, and what the edge tracker records and republishes.
 */
module PollProperties {
  import opened Wrappers
  import opened Decimal
  import opened Python
  import opened Registers
  import opened Transport
  import opened PollCycle

  // ---------------------------------------------------------------------------------
  // Distinct ids

  /** No entry except the `j`-th (none at all when `j` is out of range) has the id `u` under `id`, entry by entry. */
  predicate NoOtherId(items: seq<Item>, id: Item -> string, u: string, j: int)
    decreases |items|
  {
    |items| == 0 || ((j == 0 || id(items[0]) != u) && NoOtherId(items[1..], id, u, j - 1))
  }

  /** The entry-by-entry test says exactly that every entry other than the `j`-th has another id. */
  lemma {:induction false} NoOtherIdMeansDistinct(items: seq<Item>, id: Item -> string, u: string, j: int)
    ensures NoOtherId(items, id, u, j) <==> forall i :: 0 <= i < |items| && i != j ==> id(items[i]) != u
    decreases |items|
  {
    if |items| > 0 {
      NoOtherIdMeansDistinct(items[1..], id, u, j - 1);
      assert forall i :: 0 < i < |items| ==> items[1..][i - 1] == items[i];
    }
  }

  // ---------------------------------------------------------------------------------
  // Input block

  /** The input read starts at 0 and covers the PDU address of every input entry. */
  lemma InputBlockCoversCatalog(items: seq<Item>)
    requires |items| > 0
    requires forall i :: 0 <= i < |items| ==> items[i].address >= 1
    ensures InputRequest(items).start == 0
    ensures forall i :: 0 <= i < |items| ==> 0 <= Pdu(items[i]) < InputRequest(items).count
  {
  }

  /** An input loop whose every entry lies inside the returned words never raises. */
  lemma {:induction false} InputFromSucceeds(items: seq<Item>, regs: seq<int>, acc: Snapshot)
    requires forall i :: 0 <= i < |items| ==> 0 <= Pdu(items[i]) < |regs|
    ensures InputFrom(items, regs, acc).Some?
    decreases |items|
  {
    if |items| > 0 {
      var next := InputStep(acc, items[0], regs);
      assert next.Some?;
      InputFromSucceeds(items[1..], regs, next.value);
    }
  }

  /** When the device returns the whole requested input block, the input section cannot fail. */
  lemma FullInputBlockDecodes(items: seq<Item>, regs: seq<int>)
    requires |items| > 0
    requires forall i :: 0 <= i < |items| ==> items[i].address >= 1
    requires |regs| == InputRequest(items).count
    ensures InputFrom(items, regs, map[]).Some?
  {
    InputFromSucceeds(items, regs, map[]);
  }

  /** Entries whose id no input entry carries are left as they were. */
  lemma {:induction false} InputFromFrame(items: seq<Item>, regs: seq<int>, acc: Snapshot, u: string)
    requires InputFrom(items, regs, acc).Some?
    requires forall i :: 0 <= i < |items| ==> InputId(items[i]) != u
    ensures var m := InputFrom(items, regs, acc).value;
      (u in m <==> u in acc) && (u in acc ==> m[u] == acc[u])
    decreases |items|
  {
    if |items| > 0 {
      var next := InputStep(acc, items[0], regs).value;
      InputFromFrame(items[1..], regs, next, u);
    }
  }

  /**
   * With distinct ids, an input entry is absent exactly when its (first) word is the
   * sentinel 32766; otherwise it holds the raw word, or the slice of `count` words, its
   * input type and its 0-based address.
   */
  lemma {:induction false} InputEntryDecoded(items: seq<Item>, regs: seq<int>, acc: Snapshot, j: int)
    requires 0 <= j < |items|
    requires InputFrom(items, regs, acc).Some?
    requires InputIdDistinctAt(items, j)
    requires InputId(items[j]) !in acc
    ensures InputOutcome(items[j], regs, InputFrom(items, regs, acc).value)
    decreases |items|, 1
  {
    if j == 0 {
      NoOtherIdMeansDistinct(items, InputId, InputId(items[0]), 0);
      InputEntryFirst(items, regs, acc);
    } else {
      InputEntryLater(items, regs, acc, j);
    }
  }

  /** The first entry is decoded as the first step stores it, and later entries with other ids leave it alone. */
  lemma InputEntryFirst(items: seq<Item>, regs: seq<int>, acc: Snapshot)
    requires 0 < |items|
    requires InputFrom(items, regs, acc).Some?
    requires forall i :: 0 < i < |items| ==> InputId(items[i]) != InputId(items[0])
    requires InputId(items[0]) !in acc
    ensures InputOutcome(items[0], regs, InputFrom(items, regs, acc).value)
  {
    var next := InputStep(acc, items[0], regs).value;
    assert InputFrom(items, regs, acc) == InputFrom(items[1..], regs, next);
    forall i | 0 <= i < |items[1..]| ensures InputId(items[1..][i]) != InputId(items[0]) {
      assert items[1..][i] == items[i + 1];
    }
    InputFromFrame(items[1..], regs, next, InputId(items[0]));
  }

  /**
   * A later entry is decoded by the rest of the loop, which the first step does not disturb.
   * The outcome is stated as `== true` so that it is checked as one fact rather than
   * clause by clause.
   */
  lemma InputEntryLater(items: seq<Item>, regs: seq<int>, acc: Snapshot, j: int)
    requires 0 < j < |items|
    requires InputFrom(items, regs, acc).Some?
    requires InputIdDistinctAt(items, j)
    requires InputId(items[j]) !in acc
    ensures InputOutcome(items[j], regs, InputFrom(items, regs, acc).value) == true
    decreases |items|, 0
  {
    InputTailContext(items, regs, acc, j);
    InputEntryDecoded(items[1..], regs, InputStep(acc, items[0], regs).value, j - 1);
    InputEntryAfterFirst(items, regs, acc, j);
  }

  /** What the rest of the loop leaves for the `j`-th entry is what the whole loop leaves. */
  lemma InputEntryAfterFirst(items: seq<Item>, regs: seq<int>, acc: Snapshot, j: int)
    requires 0 < j < |items|
    requires InputFrom(items, regs, acc).Some?
    requires InputStep(acc, items[0], regs).Some?
    requires var next := InputStep(acc, items[0], regs).value;
      InputFrom(items[1..], regs, next).Some?
      && InputOutcome(items[1..][j - 1], regs, InputFrom(items[1..], regs, next).value) == true
    ensures InputOutcome(items[j], regs, InputFrom(items, regs, acc).value) == true
  {
    InputFromUnfold(items, regs, acc);
    assert items[1..][j - 1] == items[j];
  }

  /** After the first step, the `j`-th entry is the `(j-1)`-th of the rest, still with a distinct id not yet stored. */
  lemma InputTailContext(items: seq<Item>, regs: seq<int>, acc: Snapshot, j: int)
    requires 0 < j < |items|
    requires InputFrom(items, regs, acc).Some?
    requires InputIdDistinctAt(items, j)
    requires InputId(items[j]) !in acc
    ensures InputStep(acc, items[0], regs).Some?
    ensures var next := InputStep(acc, items[0], regs).value;
      InputFrom(items, regs, acc) == InputFrom(items[1..], regs, next)
      && items[1..][j - 1] == items[j]
      && InputIdDistinctAt(items[1..], j - 1)
      && InputId(items[j]) !in next
  {
    InputFromUnfold(items, regs, acc);
    InputIdsDistinctInTail(items, j);
    InputStepFrame(acc, items[0], regs, InputId(items[j]));
  }

  /** What the input loop leaves under the id of entry `it`: nothing for the sentinel, otherwise the word or the slice of `count` words, with the input type and the 0-based address. */
  ghost predicate InputOutcome(it: Item, regs: seq<int>, m: Snapshot) {
    var u, kind := InputId(it), it.inputType.GetOr("input");
    if CountOf(it) == 1 then SingleWordOutcome(u, regs, Pdu(it), kind, m)
    else SliceOutcome(u, Slice(regs, Pdu(it), Pdu(it) + CountOf(it)), kind, Pdu(it), m)
  }

  /** A single-word entry: the word at `a` exists, and is stored under `u` unless it is the sentinel. */
  ghost predicate SingleWordOutcome(u: string, regs: seq<int>, a: int, kind: string, m: Snapshot) {
    Index(regs, a).Some?
    && (u in m <==> Index(regs, a).value != SENTINEL)
    && (u in m ==> m[u] == Reading(Word(Index(regs, a).value), kind, a))
  }

  /** A multi-word entry: the slice `ws` is stored under `u` unless it starts with the sentinel. */
  ghost predicate SliceOutcome(u: string, ws: seq<int>, kind: string, a: int, m: Snapshot) {
    (u in m <==> !(|ws| > 0 && ws[0] == SENTINEL))
    && (u in m ==> m[u] == Reading(Words(ws), kind, a))
  }

  /** The loop is its first step followed by the loop over the remaining entries. */
  lemma InputFromUnfold(items: seq<Item>, regs: seq<int>, acc: Snapshot)
    requires 0 < |items| && InputFrom(items, regs, acc).Some?
    ensures InputStep(acc, items[0], regs).Some?
    ensures InputFrom(items, regs, acc) == InputFrom(items[1..], regs, InputStep(acc, items[0], regs).value)
  {
  }

  /** One step leaves every other id alone. */
  lemma InputStepFrame(acc: Snapshot, item: Item, regs: seq<int>, u: string)
    requires InputStep(acc, item, regs).Some? && InputId(item) != u
    ensures var next := InputStep(acc, item, regs).value;
      (u in next <==> u in acc) && (u in acc ==> next[u] == acc[u])
  {
  }

  /** No entry other than the `j`-th has its id. */
  predicate InputIdDistinctAt(items: seq<Item>, j: int)
    requires 0 <= j < |items|
  {
    NoOtherId(items, InputId, InputId(items[j]), j)
  }

  /** Dropping the first entry keeps a later entry's id distinct from the others. */
  lemma InputIdsDistinctInTail(items: seq<Item>, j: int)
    requires 0 < j < |items|
    requires InputIdDistinctAt(items, j)
    ensures items[1..][j - 1] == items[j] && InputId(items[0]) != InputId(items[j])
    ensures InputIdDistinctAt(items[1..], j - 1)
  {
  }

  // ---------------------------------------------------------------------------------
  // Discrete inputs and coils

  lemma {:induction false} BitsFromFrame(table: BitTable, items: seq<Item>, base: int, bits: seq<bool>, acc: Snapshot, u: string)
    requires forall i :: 0 <= i < |items| ==> table.Id(items[i]) != u
    ensures var m := BitsFrom(table, items, base, bits, acc);
      (u in m <==> u in acc) && (u in acc ==> m[u] == acc[u])
    decreases |items|
  {
    if |items| > 0 {
      BitsFromFrame(table, items[1..], base, bits, BitStep(table, acc, items[0], base, bits), u);
    }
  }

  /**
   * What the bit loop leaves under the id of entry `it`, relative to the snapshot `acc` it
   * started from: the decoded bit when the offset falls inside the returned bits, and
   * otherwise whatever `acc` held.
   */
  ghost predicate BitOutcome(table: BitTable, it: Item, base: int, bits: seq<bool>, acc: Snapshot, m: Snapshot) {
    var u, off := table.Id(it), Pdu(it) - base;
    (0 <= off < |bits| ==> u in m && m[u] == Reading(Word(if bits[off] then 1 else 0), it.inputType.GetOr(table.DefaultType()), it.address))
    && (!(0 <= off < |bits|) ==> (u in m <==> u in acc) && (u in acc ==> m[u] == acc[u]))
  }

  /** A step for an entry with another id does not change the outcome for `it`. */
  lemma BitOutcomeBeforeStep(table: BitTable, first: Item, it: Item, base: int, bits: seq<bool>, acc: Snapshot, m: Snapshot)
    requires table.Id(first) != table.Id(it)
    requires BitOutcome(table, it, base, bits, BitStep(table, acc, first, base, bits), m)
    ensures BitOutcome(table, it, base, bits, acc, m)
  {
  }

  /** The entry written by the first iteration survives the rest of the loop when no later entry shares its id. */
  lemma BitEntryFirst(table: BitTable, items: seq<Item>, base: int, bits: seq<bool>, acc: Snapshot)
    requires 0 < |items|
    requires forall i :: 0 < i < |items| ==> table.Id(items[i]) != table.Id(items[0])
    ensures BitOutcome(table, items[0], base, bits, acc, BitsFrom(table, items, base, bits, acc))
  {
    var next := BitStep(table, acc, items[0], base, bits);
    forall i | 0 <= i < |items[1..]| ensures table.Id(items[1..][i]) != table.Id(items[0]) {
      assert items[1..][i] == items[i + 1];
    }
    BitsFromFrame(table, items[1..], base, bits, next, table.Id(items[0]));
  }

  /**
   * With distinct ids, a bit entry is stored exactly when its offset from the block start
   * lies inside the returned bits, as 1 for a set bit and 0 otherwise, with its 1-based
   * address; otherwise what was there stays.
   */
  lemma {:induction false} BitEntryDecoded(table: BitTable, items: seq<Item>, base: int, bits: seq<bool>, acc: Snapshot, j: int)
    requires 0 <= j < |items|
    requires BitIdDistinctAt(table, items, j)
    ensures BitOutcome(table, items[j], base, bits, acc, BitsFrom(table, items, base, bits, acc))
    decreases |items|, 1
  {
    if j == 0 {
      BitEntryFirst(table, items, base, bits, acc);
    } else {
      BitEntryLater(table, items, base, bits, acc, j);
    }
  }

  /** A later bit entry is decoded by the rest of the loop, which the first step does not disturb. */
  lemma BitEntryLater(table: BitTable, items: seq<Item>, base: int, bits: seq<bool>, acc: Snapshot, j: int)
    requires 0 < j < |items|
    requires BitIdDistinctAt(table, items, j)
    ensures BitOutcome(table, items[j], base, bits, acc, BitsFrom(table, items, base, bits, acc))
    decreases |items|, 0
  {
    var next := BitStep(table, acc, items[0], base, bits);
    var m := BitsFrom(table, items[1..], base, bits, next);
    BitsFromUnfold(table, items, base, bits, acc);
    BitIdsDistinctInTail(table, items, j);
    BitEntryDecoded(table, items[1..], base, bits, next, j - 1);
    BitOutcomeBeforeStep(table, items[0], items[j], base, bits, acc, m);
  }

  /** The bit loop is its first step followed by the loop over the remaining entries. */
  lemma BitsFromUnfold(table: BitTable, items: seq<Item>, base: int, bits: seq<bool>, acc: Snapshot)
    requires 0 < |items|
    ensures BitsFrom(table, items, base, bits, acc)
      == BitsFrom(table, items[1..], base, bits, BitStep(table, acc, items[0], base, bits))
  {
  }

  /** No entry other than the `j`-th has its id. */
  predicate BitIdDistinctAt(table: BitTable, items: seq<Item>, j: int)
    requires 0 <= j < |items|
  {
    forall i :: 0 <= i < |items| && i != j ==> table.Id(items[i]) != table.Id(items[j])
  }

  /** Dropping the first entry keeps a later entry's id distinct from the others. */
  lemma BitIdsDistinctInTail(table: BitTable, items: seq<Item>, j: int)
    requires 0 < j < |items|
    requires BitIdDistinctAt(table, items, j)
    ensures items[1..][j - 1] == items[j] && table.Id(items[0]) != table.Id(items[j])
    ensures BitIdDistinctAt(table, items[1..], j - 1)
  {
    forall i | 0 <= i < |items[1..]| && i != j - 1 ensures table.Id(items[1..][i]) != table.Id(items[j]) {
      assert items[1..][i] == items[i + 1];
    }
  }

  /** A failed discrete-input read leaves the cycle as if there were no discrete inputs. */
  lemma DiscreteFailureAddsNothing(cat: Catalog, rr: ReadResult<int>, di: ReadResult<bool>, di': ReadResult<bool>, co: ReadResult<bool>, hr: ReadResult<int>)
    requires !di.Response?
    ensures Decode(cat, rr, di, co, hr) == Decode(cat.(discrete := []), rr, di', co, hr)
  {
  }

  /** A failed coil read leaves the cycle as if there were no coils. */
  lemma CoilFailureAddsNothing(cat: Catalog, rr: ReadResult<int>, di: ReadResult<bool>, co: ReadResult<bool>, co': ReadResult<bool>, hr: ReadResult<int>)
    requires !co.Response?
    ensures Decode(cat, rr, di, co, hr) == Decode(cat.(coils := []), rr, di, co', hr)
  {
  }

  // ---------------------------------------------------------------------------------
  // Holding and select registers

  /** An error response from the holding read only logs: the snapshot is passed on as it was. */
  lemma HoldingErrorResponseKeeps(items: seq<Item>, end: int, regs: seq<int>, acc: Snapshot)
    ensures HoldingPhase(items, ErrorResponse, end, regs, acc) == Some(acc)
  {
  }

  /** The id `u` has the same entry, or the same absence, in `m` as in `acc`. */
  ghost predicate KeptAt(u: string, acc: Snapshot, m: Snapshot) {
    (u in m <==> u in acc) && (u in acc ==> m[u] == acc[u])
  }

  /**
   * What a holding-style loop leaves under `u` for the word `raw` it read: the entry `e`
   * unless the word is the sentinel, in which case whatever `acc` held stays.
   */
  ghost predicate WordOutcome(u: string, raw: int, e: Entry, acc: Snapshot, m: Snapshot) {
    (raw != SENTINEL ==> u in m && m[u] == e) && (raw == SENTINEL ==> KeptAt(u, acc, m))
  }

  /**
   * What the holding loop leaves under the id of entry `it`, relative to the snapshot `acc`
   * it started from: for a PDU address below the block length, the word there (a negative
   * address counts from the end) with the input type (default "holding") and the 1-based
   * address, unless it is the sentinel; for an address past the block, nothing changes.
   */
  ghost predicate HoldingOutcome(it: Item, hregs: seq<int>, acc: Snapshot, m: Snapshot) {
    var u, a := HoldingId(it), Pdu(it);
    if a < |hregs| then
      Index(hregs, a).Some?
      && WordOutcome(u, Index(hregs, a).value, Reading(Word(Index(hregs, a).value), it.inputType.GetOr("holding"), it.address), acc, m)
    else KeptAt(u, acc, m)
  }

  /** Ids no holding entry produces are left as they were, whether or not the loop raises. */
  lemma {:induction false} HoldingFromFrame(items: seq<Item>, hregs: seq<int>, acc: Snapshot, u: string)
    requires forall i :: 0 <= i < |items| ==> HoldingId(items[i]) != u
    ensures KeptAt(u, acc, HoldingFrom(items, hregs, acc).0)
    decreases |items|
  {
    if |items| > 0 {
      match HoldingStep(acc, items[0], hregs)
      case None =>
      case Some(next) =>
        assert KeptAt(u, acc, next);
        HoldingFromFrame(items[1..], hregs, next, u);
    }
  }

  /** A loop that did not raise took its first step and then ran over the remaining entries. */
  lemma HoldingFromUnfold(items: seq<Item>, hregs: seq<int>, acc: Snapshot)
    requires 0 < |items| && !HoldingFrom(items, hregs, acc).1
    ensures HoldingStep(acc, items[0], hregs).Some?
    ensures HoldingFrom(items, hregs, acc) == HoldingFrom(items[1..], hregs, HoldingStep(acc, items[0], hregs).value)
  {
  }

  /** A step for an entry with another id does not change the outcome for `it`. */
  lemma HoldingOutcomeBeforeStep(first: Item, it: Item, hregs: seq<int>, acc: Snapshot, m: Snapshot)
    requires HoldingId(first) != HoldingId(it)
    requires HoldingStep(acc, first, hregs).Some?
    requires HoldingOutcome(it, hregs, HoldingStep(acc, first, hregs).value, m)
    ensures HoldingOutcome(it, hregs, acc, m)
  {
    assert KeptAt(HoldingId(it), acc, HoldingStep(acc, first, hregs).value);
  }

  /** The entry written by the first iteration survives the rest of the loop when no later entry shares its id. */
  lemma HoldingEntryFirst(items: seq<Item>, hregs: seq<int>, acc: Snapshot)
    requires 0 < |items| && !HoldingFrom(items, hregs, acc).1
    requires forall i :: 0 < i < |items| ==> HoldingId(items[i]) != HoldingId(items[0])
    ensures HoldingOutcome(items[0], hregs, acc, HoldingFrom(items, hregs, acc).0)
  {
    HoldingFromUnfold(items, hregs, acc);
    var next := HoldingStep(acc, items[0], hregs).value;
    forall i | 0 <= i < |items[1..]| ensures HoldingId(items[1..][i]) != HoldingId(items[0]) {
      assert items[1..][i] == items[i + 1];
    }
    HoldingFromFrame(items[1..], hregs, next, HoldingId(items[0]));
    assert HoldingOutcome(items[0], hregs, acc, next);
  }

  /**
   * With distinct ids, a holding or select entry read from a holding block that did not
   * raise holds the register's word, its input type and its 1-based address exactly when
   * the word is not the sentinel 32766; an entry past the end of the block, or with the
   * sentinel, leaves its id as it was.
   */
  lemma {:induction false} HoldingEntryDecoded(items: seq<Item>, hregs: seq<int>, acc: Snapshot, j: int)
    requires 0 <= j < |items|
    requires !HoldingFrom(items, hregs, acc).1
    requires HoldingIdDistinctAt(items, j)
    ensures HoldingOutcome(items[j], hregs, acc, HoldingFrom(items, hregs, acc).0)
    decreases |items|, 1
  {
    if j == 0 {
      NoOtherIdMeansDistinct(items, HoldingId, HoldingId(items[0]), 0);
      HoldingEntryFirst(items, hregs, acc);
    } else {
      HoldingEntryLater(items, hregs, acc, j);
    }
  }

  /** A later holding entry is decoded by the rest of the loop, which the first step does not disturb. */
  lemma HoldingEntryLater(items: seq<Item>, hregs: seq<int>, acc: Snapshot, j: int)
    requires 0 < j < |items|
    requires !HoldingFrom(items, hregs, acc).1
    requires HoldingIdDistinctAt(items, j)
    ensures HoldingOutcome(items[j], hregs, acc, HoldingFrom(items, hregs, acc).0)
    decreases |items|, 0
  {
    HoldingFromUnfold(items, hregs, acc);
    HoldingIdsDistinctInTail(items, j);
    var rest, next := items[1..], HoldingStep(acc, items[0], hregs).value;
    HoldingEntryDecoded(rest, hregs, next, j - 1);
    HoldingOutcomeBeforeStep(items[0], items[j], hregs, acc, HoldingFrom(rest, hregs, next).0);
  }

  /** No entry other than the `j`-th has its id. */
  predicate HoldingIdDistinctAt(items: seq<Item>, j: int)
    requires 0 <= j < |items|
  {
    NoOtherId(items, HoldingId, HoldingId(items[j]), j)
  }

  /** Dropping the first entry keeps a later entry's id distinct from the others. */
  lemma HoldingIdsDistinctInTail(items: seq<Item>, j: int)
    requires 0 < j < |items|
    requires HoldingIdDistinctAt(items, j)
    ensures items[1..][j - 1] == items[j] && HoldingId(items[0]) != HoldingId(items[j])
    ensures HoldingIdDistinctAt(items[1..], j - 1)
  {
  }

  /**
   * The holding loop never raises for catalog addresses of 1 or more: an address past the
   * block is only logged.
   */
  lemma {:induction false} HoldingFromSucceeds(items: seq<Item>, hregs: seq<int>, acc: Snapshot)
    requires forall i :: 0 <= i < |items| ==> items[i].address >= 1
    ensures !HoldingFrom(items, hregs, acc).1
    decreases |items|
  {
    if |items| > 0 {
      var next := HoldingStep(acc, items[0], hregs);
      assert next.Some?;
      HoldingFromSucceeds(items[1..], hregs, next.value);
    }
  }

  /**
   * For catalog addresses of 1 or more, the fallback runs exactly when the holding read
   * raises: a response is decoded from the holding block alone, an error response keeps
   * the snapshot, and an exception reads the input block.
   */
  lemma FallbackOnlyOnException(items: seq<Item>, read: ReadResult<int>, end: int, regs: seq<int>, acc: Snapshot)
    requires 0 < |items|
    requires forall i :: 0 <= i < |items| ==> items[i].address >= 1
    ensures read.Response? ==> HoldingPhase(items, read, end, regs, acc) == Some(HoldingFrom(items, read.values, acc).0)
    ensures read.ErrorResponse? ==> HoldingPhase(items, read, end, regs, acc) == Some(acc)
    ensures read.Raised? ==> HoldingPhase(items, read, end, regs, acc) == FallbackFrom(items, end, regs, acc)
  {
    if read.Response? {
      HoldingFromSucceeds(items, read.values, acc);
    }
  }

  /** A fallback entry: a holding entry whose PDU address lies in `[0, end]`, read as a single word of the input block. */
  ghost predicate FallbackEntry(items: seq<Item>, end: int, regs: seq<int>, k: string, e: Entry) {
    exists i :: 0 <= i < |items| && k == HoldingId(items[i]) && 0 <= Pdu(items[i]) <= end && Pdu(items[i]) < |regs|
      && regs[Pdu(items[i])] != SENTINEL
      && e == Reading(Word(regs[Pdu(items[i])]), items[i].inputType.GetOr("holding"), items[i].address)
  }

  lemma FallbackEntryTail(items: seq<Item>, end: int, regs: seq<int>, k: string, e: Entry)
    requires |items| > 0
    requires FallbackEntry(items[1..], end, regs, k, e)
    ensures FallbackEntry(items, end, regs, k, e)
  {
    var i :| 0 <= i < |items[1..]| && k == HoldingId(items[1..][i]) && 0 <= Pdu(items[1..][i]) <= end && Pdu(items[1..][i]) < |regs|
      && regs[Pdu(items[1..][i])] != SENTINEL
      && e == Reading(Word(regs[Pdu(items[1..][i])]), items[1..][i].inputType.GetOr("holding"), items[1..][i].address);
    assert items[1..][i] == items[i + 1];
  }

  /**
   * The fallback only ever reads the input block inside `[0, end]`: every entry it leaves
   * is either one it was given, or the input word at the PDU address of a holding entry
   * in that range, never the sentinel.
   */
  lemma {:induction false} FallbackOnlyFromInputBlock(items: seq<Item>, end: int, regs: seq<int>, acc: Snapshot)
    requires FallbackFrom(items, end, regs, acc).Some?
    ensures var m := FallbackFrom(items, end, regs, acc).value;
      forall k :: k in m ==> (k in acc && m[k] == acc[k]) || FallbackEntry(items, end, regs, k, m[k])
    decreases |items|
  {
    if |items| > 0 {
      var next := FallbackStep(acc, items[0], end, regs).value;
      FallbackOnlyFromInputBlock(items[1..], end, regs, next);
      var m := FallbackFrom(items, end, regs, acc).value;
      forall k | k in m
        ensures (k in acc && m[k] == acc[k]) || FallbackEntry(items, end, regs, k, m[k])
      {
        if FallbackEntry(items[1..], end, regs, k, m[k]) {
          FallbackEntryTail(items, end, regs, k, m[k]);
        } else if !(k in acc && next[k] == acc[k]) {
          assert 0 <= Pdu(items[0]) <= end && k == HoldingId(items[0]);
          assert FallbackEntry(items, end, regs, k, m[k]) by {
            assert items[0].address == Pdu(items[0]) + 1;
          }
        }
      }
    }
  }

  // ---------------------------------------------------------------------------------
  // Binary sensors

  /** The binary loop adds entries but never replaces one that is already there. */
  lemma {:induction false} BinaryNeverOverwrites(items: seq<Item>, regs: seq<int>, acc: Snapshot)
    requires BinaryFrom(items, regs, acc).Some?
    ensures var m := BinaryFrom(items, regs, acc).value;
      forall k :: k in acc ==> k in m && m[k] == acc[k]
    decreases |items|
  {
    if |items| > 0 {
      var next := BinaryStep(acc, items[0], regs).value;
      assert forall k :: k in acc ==> k in next && next[k] == acc[k];
      BinaryNeverOverwrites(items[1..], regs, next);
    }
  }

  /** A binary loop whose entries all lie inside the input block never raises. */
  lemma {:induction false} BinaryFromSucceeds(items: seq<Item>, regs: seq<int>, acc: Snapshot)
    requires forall i :: 0 <= i < |items| ==> 0 <= Pdu(items[i]) < |regs|
    ensures BinaryFrom(items, regs, acc).Some?
    decreases |items|
  {
    if |items| > 0 {
      var next := BinaryStep(acc, items[0], regs);
      assert next.Some?;
      BinaryFromSucceeds(items[1..], regs, next.value);
    }
  }

  /** A fallback whose entries in `[0, end]` all lie inside the input block never raises. */
  lemma {:induction false} FallbackFromSucceeds(items: seq<Item>, end: int, regs: seq<int>, acc: Snapshot)
    requires end < |regs|
    ensures FallbackFrom(items, end, regs, acc).Some?
    decreases |items|
  {
    if |items| > 0 {
      var next := FallbackStep(acc, items[0], end, regs);
      assert next.Some?;
      FallbackFromSucceeds(items[1..], end, regs, next.value);
    }
  }

  /**
   * What the fallback leaves under the id of entry `it`, relative to the snapshot `acc` it
   * started from: for a PDU address in `[0, end]`, the input word there with the input type
   * (default "holding") and the 1-based address, unless it is the sentinel; for any other
   * address, nothing changes.
   */
  ghost predicate FallbackOutcome(it: Item, end: int, regs: seq<int>, acc: Snapshot, m: Snapshot) {
    var u, a := HoldingId(it), Pdu(it);
    if INPUT_START <= a <= end then
      Index(regs, a - INPUT_START).Some?
      && WordOutcome(u, Index(regs, a - INPUT_START).value,
        Reading(Word(Index(regs, a - INPUT_START).value), it.inputType.GetOr("holding"), it.address), acc, m)
    else KeptAt(u, acc, m)
  }

  /** Ids no holding entry produces are left as they were by the fallback. */
  lemma {:induction false} FallbackFromFrame(items: seq<Item>, end: int, regs: seq<int>, acc: Snapshot, u: string)
    requires FallbackFrom(items, end, regs, acc).Some?
    requires forall i :: 0 <= i < |items| ==> HoldingId(items[i]) != u
    ensures KeptAt(u, acc, FallbackFrom(items, end, regs, acc).value)
    decreases |items|
  {
    if |items| > 0 {
      var next := FallbackStep(acc, items[0], end, regs).value;
      assert KeptAt(u, acc, next);
      FallbackFromFrame(items[1..], end, regs, next, u);
    }
  }

  /** A fallback that did not raise took its first step and then ran over the remaining entries. */
  lemma FallbackFromUnfold(items: seq<Item>, end: int, regs: seq<int>, acc: Snapshot)
    requires 0 < |items| && FallbackFrom(items, end, regs, acc).Some?
    ensures FallbackStep(acc, items[0], end, regs).Some?
    ensures FallbackFrom(items, end, regs, acc) == FallbackFrom(items[1..], end, regs, FallbackStep(acc, items[0], end, regs).value)
  {
  }

  /** A fallback step for an entry with another id does not change the outcome for `it`. */
  lemma FallbackOutcomeBeforeStep(first: Item, it: Item, end: int, regs: seq<int>, acc: Snapshot, m: Snapshot)
    requires HoldingId(first) != HoldingId(it)
    requires FallbackStep(acc, first, end, regs).Some?
    requires FallbackOutcome(it, end, regs, FallbackStep(acc, first, end, regs).value, m)
    ensures FallbackOutcome(it, end, regs, acc, m)
  {
    assert KeptAt(HoldingId(it), acc, FallbackStep(acc, first, end, regs).value);
  }

  /** The entry written by the first fallback step survives the rest when no later entry shares its id. */
  lemma FallbackEntryFirst(items: seq<Item>, end: int, regs: seq<int>, acc: Snapshot)
    requires 0 < |items| && FallbackFrom(items, end, regs, acc).Some?
    requires forall i :: 0 < i < |items| ==> HoldingId(items[i]) != HoldingId(items[0])
    ensures FallbackOutcome(items[0], end, regs, acc, FallbackFrom(items, end, regs, acc).value)
  {
    FallbackFromUnfold(items, end, regs, acc);
    var next := FallbackStep(acc, items[0], end, regs).value;
    forall i | 0 <= i < |items[1..]| ensures HoldingId(items[1..][i]) != HoldingId(items[0]) {
      assert items[1..][i] == items[i + 1];
    }
    FallbackFromFrame(items[1..], end, regs, next, HoldingId(items[0]));
    assert FallbackOutcome(items[0], end, regs, acc, next);
  }

  /**
   * With distinct ids, the fallback stores every holding or select entry whose PDU address
   * lies in `[0, end]` and whose input word is not the sentinel 32766, with that word, its
   * input type and its 1-based address; the other entries leave their ids as they were.
   */
  lemma {:induction false} FallbackEntryDecoded(items: seq<Item>, end: int, regs: seq<int>, acc: Snapshot, j: int)
    requires 0 <= j < |items|
    requires FallbackFrom(items, end, regs, acc).Some?
    requires HoldingIdDistinctAt(items, j)
    ensures FallbackOutcome(items[j], end, regs, acc, FallbackFrom(items, end, regs, acc).value)
    decreases |items|, 1
  {
    if j == 0 {
      NoOtherIdMeansDistinct(items, HoldingId, HoldingId(items[0]), 0);
      FallbackEntryFirst(items, end, regs, acc);
    } else {
      FallbackEntryLater(items, end, regs, acc, j);
    }
  }

  /**
   * A later entry is decoded by the rest of the fallback, which the first step does not
   * disturb.
   * The outcome is stated as `== true` so that it is checked as one fact rather than
   * clause by clause.
   */
  lemma FallbackEntryLater(items: seq<Item>, end: int, regs: seq<int>, acc: Snapshot, j: int)
    requires 0 < j < |items|
    requires FallbackFrom(items, end, regs, acc).Some?
    requires HoldingIdDistinctAt(items, j)
    ensures FallbackOutcome(items[j], end, regs, acc, FallbackFrom(items, end, regs, acc).value) == true
    decreases |items|, 0
  {
    FallbackTailContext(items, end, regs, acc, j);
    FallbackEntryDecoded(items[1..], end, regs, FallbackStep(acc, items[0], end, regs).value, j - 1);
    FallbackEntryAfterFirst(items, end, regs, acc, j);
  }

  /** What the rest of the fallback leaves for the `j`-th entry is what the whole fallback leaves. */
  lemma FallbackEntryAfterFirst(items: seq<Item>, end: int, regs: seq<int>, acc: Snapshot, j: int)
    requires 0 < j < |items|
    requires FallbackFrom(items, end, regs, acc).Some?
    requires HoldingIdDistinctAt(items, j)
    requires FallbackStep(acc, items[0], end, regs).Some?
    requires var next := FallbackStep(acc, items[0], end, regs).value;
      FallbackFrom(items[1..], end, regs, next).Some?
      && FallbackOutcome(items[1..][j - 1], end, regs, next, FallbackFrom(items[1..], end, regs, next).value) == true
    ensures FallbackOutcome(items[j], end, regs, acc, FallbackFrom(items, end, regs, acc).value) == true
  {
    FallbackTailContext(items, end, regs, acc, j);
    var next := FallbackStep(acc, items[0], end, regs).value;
    FallbackOutcomeBeforeStep(items[0], items[j], end, regs, acc, FallbackFrom(items[1..], end, regs, next).value);
  }

  /** After the first fallback step, the `j`-th entry is the `(j-1)`-th of the rest, its id still distinct. */
  lemma FallbackTailContext(items: seq<Item>, end: int, regs: seq<int>, acc: Snapshot, j: int)
    requires 0 < j < |items|
    requires FallbackFrom(items, end, regs, acc).Some?
    requires HoldingIdDistinctAt(items, j)
    ensures FallbackStep(acc, items[0], end, regs).Some?
    ensures var next := FallbackStep(acc, items[0], end, regs).value;
      FallbackFrom(items, end, regs, acc) == FallbackFrom(items[1..], end, regs, next)
      && items[1..][j - 1] == items[j]
      && HoldingIdDistinctAt(items[1..], j - 1)
      && HoldingId(items[0]) != HoldingId(items[j])
  {
    FallbackFromUnfold(items, end, regs, acc);
    HoldingIdsDistinctInTail(items, j);
  }

  /**
   * A cycle whose input read returns the whole requested block succeeds, whatever the
   * discrete, coil and holding reads give, as long as every catalog address is at least 1
   * and every binary sensor lies inside the input block.
   */
  lemma FullInputBlockSucceeds(cat: Catalog, regs: seq<int>, di: ReadResult<bool>, co: ReadResult<bool>, hr: ReadResult<int>)
    requires |cat.input| > 0
    requires forall i :: 0 <= i < |cat.input| ==> cat.input[i].address >= 1
    requires |regs| == InputRequest(cat.input).count
    requires forall i :: 0 <= i < |cat.binary| ==> 1 <= cat.binary[i].address <= |regs|
    ensures Decode(cat, Response(regs), di, co, hr).Success?
  {
    FullInputBlockDecodes(cat.input, regs);
    var d1 := InputFrom(cat.input, regs, map[]).value;
    var d3 := BitPhase(Coils, cat.coils, co, BitPhase(DiscreteInputs, cat.discrete, di, d1));
    var items := cat.holding + cat.select;
    if |items| > 0 {
      match hr
      case Response(hregs) =>
        var (m, raised) := HoldingFrom(items, hregs, d3);
        FallbackFromSucceeds(items, MaxPdu(cat.input), regs, m);
      case ErrorResponse =>
      case Raised =>
        FallbackFromSucceeds(items, MaxPdu(cat.input), regs, d3);
    }
    var d4 := HoldingPhase(items, hr, MaxPdu(cat.input), regs, d3);
    assert d4.Some?;
    BinaryFromSucceeds(cat.binary, regs, d4.value);
  }

  /** A failed or raising input read fails the cycle. */
  lemma InputFailureIsFatal(cat: Catalog, rr: ReadResult<int>, di: ReadResult<bool>, co: ReadResult<bool>, hr: ReadResult<int>)
    requires !rr.Response?
    ensures Decode(cat, rr, di, co, hr).Failure?
  {
  }

  // ---------------------------------------------------------------------------------
  // Edge tracking

  /** Two different addresses never share a `last_triggered_*` key. */
  lemma LastTriggeredKeysDiffer(a: int, b: int)
    requires a != b
    ensures LastTriggeredKey(a) != LastTriggeredKey(b)
  {
    if LastTriggeredKey(a) == LastTriggeredKey(b) {
      PrefixedIdsInjective(LAST_TRIGGERED, a, b);
    }
  }

  /** A binary sensor whose address is `a` has an off-to-on transition in this cycle. */
  ghost predicate EdgeAt(t: Tracker, bs: seq<Item>, data: Snapshot, prev: Snapshot, a: int) {
    exists i :: 0 <= i < |bs| && bs[i].address == a && RisingEdge(t, bs[i], data, prev)
  }

  /** Adding a `last_triggered_*` key changes no tracked value. */
  lemma EdgesIgnoreStamps(t: Tracker, bs: seq<Item>, data: Snapshot, prev: Snapshot, a: int, stamp: Time)
    requires TrackIdsWellFormed(t, bs)
    ensures forall i :: 0 <= i < |bs| ==>
      (RisingEdge(t, bs[i], data[LastTriggeredKey(a) := Stamp(stamp)], prev) <==> RisingEdge(t, bs[i], data, prev))
  {
    LastTriggeredKeyIsOne(a);
    forall i | 0 <= i < |bs|
      ensures ValueAt(data[LastTriggeredKey(a) := Stamp(stamp)], t.Key(bs[i])) == ValueAt(data, t.Key(bs[i]))
    {
      assert t.Key(bs[i]) != LastTriggeredKey(a);
    }
  }

  lemma EdgeAtTail(t: Tracker, bs: seq<Item>, data: Snapshot, prev: Snapshot, a: int)
    requires |bs| > 0
    ensures EdgeAt(t, bs, data, prev, a) <==>
      (bs[0].address == a && RisingEdge(t, bs[0], data, prev)) || EdgeAt(t, bs[1..], data, prev, a)
  {
    if EdgeAt(t, bs, data, prev, a) && !(bs[0].address == a && RisingEdge(t, bs[0], data, prev)) {
      var i :| 0 <= i < |bs| && bs[i].address == a && RisingEdge(t, bs[i], data, prev);
      assert bs[1..][i - 1] == bs[i];
    }
    if EdgeAt(t, bs[1..], data, prev, a) {
      var i :| 0 <= i < |bs[1..]| && bs[1..][i].address == a && RisingEdge(t, bs[1..][i], data, prev);
      assert bs[i + 1] == bs[1..][i];
    }
  }

  lemma EdgeAtStamped(t: Tracker, bs: seq<Item>, data: Snapshot, prev: Snapshot, a: int, b: int, stamp: Time)
    requires TrackIdsWellFormed(t, bs)
    ensures EdgeAt(t, bs, data[LastTriggeredKey(b) := Stamp(stamp)], prev, a) <==> EdgeAt(t, bs, data, prev, a)
  {
    EdgesIgnoreStamps(t, bs, data, prev, b, stamp);
  }

  lemma TrackIdsWellFormedTail(t: Tracker, bs: seq<Item>)
    requires |bs| > 0 && TrackIdsWellFormed(t, bs)
    ensures TrackIdsWellFormed(t, bs[1..])
  {
    forall i | 0 <= i < |bs[1..]| ensures !IsLastTriggeredKey(t.Key(bs[1..][i])) {
      assert bs[1..][i] == bs[i + 1];
    }
  }

  /**
   * The timestamps after a cycle: an address gets `now` exactly when one of its binary
   * sensors went from off to on, and otherwise keeps what it had, if anything. Timestamps
   * are never dropped.
   */
  lemma {:induction false} TrackedTimes(t: Tracker, bs: seq<Item>, data: Snapshot, prev: Snapshot, lt: map<int, Time>, now: Time, a: int)
    requires TrackIdsWellFormed(t, bs)
    requires StampsOnlyUnderLastTriggered(data) && StampsOnlyUnderLastTriggered(prev)
    ensures var lt' := TrackFrom(t, bs, data, prev, lt, now).1;
      (a in lt' <==> a in lt || EdgeAt(t, bs, data, prev, a))
      && (EdgeAt(t, bs, data, prev, a) ==> lt'[a] == now)
      && (!EdgeAt(t, bs, data, prev, a) && a in lt ==> lt'[a] == lt[a])
    decreases |bs|
  {
    if |bs| > 0 {
      LastTriggeredKeyIsOne(bs[0].address);
      TrackIdsWellFormedTail(t, bs);
      var (d, l) := TrackStep(t, bs[0], data, prev, lt, now);
      TrackedTimes(t, bs[1..], d, prev, l, now, a);
      EdgeAtTail(t, bs, data, prev, a);
      if bs[0].address in l {
        EdgeAtStamped(t, bs[1..], data, prev, a, bs[0].address, l[bs[0].address]);
      }
    }
  }

  /** Binary sensors at other addresses leave the timestamp of `a` and its key alone. */
  lemma {:induction false} TrackFromFrame(t: Tracker, bs: seq<Item>, data: Snapshot, prev: Snapshot, lt: map<int, Time>, now: Time, a: int)
    requires TrackIdsWellFormed(t, bs)
    requires StampsOnlyUnderLastTriggered(data) && StampsOnlyUnderLastTriggered(prev)
    requires forall i :: 0 <= i < |bs| ==> bs[i].address != a
    ensures var (d', lt') := TrackFrom(t, bs, data, prev, lt, now);
      (a in lt' <==> a in lt) && (a in lt ==> lt'[a] == lt[a])
      && (LastTriggeredKey(a) in d' <==> LastTriggeredKey(a) in data)
      && (LastTriggeredKey(a) in data ==> d'[LastTriggeredKey(a)] == data[LastTriggeredKey(a)])
    decreases |bs|
  {
    if |bs| > 0 {
      LastTriggeredKeyIsOne(bs[0].address);
      TrackIdsWellFormedTail(t, bs);
      LastTriggeredKeysDiffer(bs[0].address, a);
      var (d, l) := TrackStep(t, bs[0], data, prev, lt, now);
      TrackFromFrame(t, bs[1..], d, prev, l, now, a);
    }
  }

  /** The tracker's result publishes the timestamp of address `a`, if it has one, under `last_triggered_<a>`. */
  ghost predicate StampPublished(r: (Snapshot, map<int, Time>), a: int) {
    a in r.1 ==> LastTriggeredKey(a) in r.0 && r.0[LastTriggeredKey(a)] == Stamp(r.1[a])
  }

  /**
   * Every address of a binary sensor that has a timestamp is published under
   * `last_triggered_<address>` with that timestamp.
   */
  lemma {:induction false} TrackedTimesPublished(t: Tracker, bs: seq<Item>, data: Snapshot, prev: Snapshot, lt: map<int, Time>, now: Time, j: int)
    requires TrackIdsWellFormed(t, bs)
    requires StampsOnlyUnderLastTriggered(data) && StampsOnlyUnderLastTriggered(prev)
    requires 0 <= j < |bs|
    ensures StampPublished(TrackFrom(t, bs, data, prev, lt, now), bs[j].address)
    decreases |bs|
  {
    var step := TrackStepKeepsStamps(t, bs, data, prev, lt, now);
    if j == 0 {
      StepPublishes(t, bs[0], data, prev, lt, now);
      PublishedPersists(t, bs[1..], step.0, prev, step.1, now, bs[0].address);
    } else {
      assert bs[1..][j - 1] == bs[j];
      TrackedTimesPublished(t, bs[1..], step.0, prev, step.1, now, j - 1);
    }
  }

  /** A step publishes the timestamp of its own address, if that address has one. */
  lemma StepPublishes(t: Tracker, b: Item, data: Snapshot, prev: Snapshot, lt: map<int, Time>, now: Time)
    requires t.Key(b) in data ==> data[t.Key(b)].Reading?
    requires t.Key(b) in prev ==> prev[t.Key(b)].Reading?
    ensures StampPublished(TrackStep(t, b, data, prev, lt, now), b.address)
  {
  }

  /** A published timestamp stays published through one step: republished at its own address, untouched at others. */
  lemma StepKeepsPublished(t: Tracker, b: Item, data: Snapshot, prev: Snapshot, lt: map<int, Time>, now: Time, a: int)
    requires t.Key(b) in data ==> data[t.Key(b)].Reading?
    requires t.Key(b) in prev ==> prev[t.Key(b)].Reading?
    requires StampPublished((data, lt), a)
    ensures StampPublished(TrackStep(t, b, data, prev, lt, now), a)
  {
    if b.address != a {
      LastTriggeredKeysDiffer(b.address, a);
    }
  }

  /** A published timestamp stays published through the rest of the loop. */
  lemma {:induction false} PublishedPersists(t: Tracker, bs: seq<Item>, data: Snapshot, prev: Snapshot, lt: map<int, Time>, now: Time, a: int)
    requires TrackIdsWellFormed(t, bs)
    requires StampsOnlyUnderLastTriggered(data) && StampsOnlyUnderLastTriggered(prev)
    requires StampPublished((data, lt), a)
    ensures StampPublished(TrackFrom(t, bs, data, prev, lt, now), a)
    decreases |bs|
  {
    if |bs| > 0 {
      var step := TrackStepKeepsStamps(t, bs, data, prev, lt, now);
      StepKeepsPublished(t, bs[0], data, prev, lt, now, a);
      PublishedPersists(t, bs[1..], step.0, prev, step.1, now, a);
    }
  }

  /** The first step of the loop keeps timestamps under `last_triggered_*` keys; the rest continues from it. */
  lemma TrackStepKeepsStamps(t: Tracker, bs: seq<Item>, data: Snapshot, prev: Snapshot, lt: map<int, Time>, now: Time)
    returns (step: (Snapshot, map<int, Time>))
    requires 0 < |bs| && TrackIdsWellFormed(t, bs)
    requires StampsOnlyUnderLastTriggered(data) && StampsOnlyUnderLastTriggered(prev)
    ensures step == TrackStep(t, bs[0], data, prev, lt, now)
    ensures StampsOnlyUnderLastTriggered(step.0) && TrackIdsWellFormed(t, bs[1..])
    ensures TrackFrom(t, bs, data, prev, lt, now) == TrackFrom(t, bs[1..], step.0, prev, step.1, now)
  {
    LastTriggeredKeyIsOne(bs[0].address);
    TrackIdsWellFormedTail(t, bs);
    step := TrackStep(t, bs[0], data, prev, lt, now);
  }

  /** Everything but the `last_triggered_*` keys is passed through the tracker unchanged. */
  lemma {:induction false} TrackingKeepsReadings(t: Tracker, bs: seq<Item>, data: Snapshot, prev: Snapshot, lt: map<int, Time>, now: Time, k: string)
    requires TrackIdsWellFormed(t, bs)
    requires StampsOnlyUnderLastTriggered(data) && StampsOnlyUnderLastTriggered(prev)
    requires !IsLastTriggeredKey(k)
    ensures var d' := TrackFrom(t, bs, data, prev, lt, now).0;
      (k in d' <==> k in data) && (k in data ==> d'[k] == data[k])
    decreases |bs|
  {
    if |bs| > 0 {
      LastTriggeredKeyIsOne(bs[0].address);
      TrackIdsWellFormedTail(t, bs);
      var (d, l) := TrackStep(t, bs[0], data, prev, lt, now);
      TrackingKeepsReadings(t, bs[1..], d, prev, l, now, k);
    }
  }

  // ---------------------------------------------------------------------------------
  // The tracker's lookup id

  /** Without a `unique_id`, the tracker's id for a binary sensor is never the id its value was stored under. */
  lemma DefaultTrackIdMissesDecodedId(b: Item)
    requires b.uniqueId.None?
    ensures AsWritten.Key(b) != BinaryId(b)
  {
    if AsWritten.Key(b) == BinaryId(b) {
      PrefixedIdsInjective("binary_", b.address, b.address - 1);
    }
  }

  lemma {:induction false} BinaryFromFrame(items: seq<Item>, regs: seq<int>, acc: Snapshot, u: string)
    requires BinaryFrom(items, regs, acc).Some?
    requires forall i :: 0 <= i < |items| ==> BinaryId(items[i]) != u
    ensures var m := BinaryFrom(items, regs, acc).value;
      (u in m <==> u in acc) && (u in acc ==> m[u] == acc[u])
    decreases |items|
  {
    if |items| > 0 {
      BinaryFromFrame(items[1..], regs, BinaryStep(acc, items[0], regs).value, u);
    }
  }

  /**
   * With distinct ids not yet in the snapshot, the value stored for a binary sensor is the
   * word at its own PDU address, absent exactly when that word is the sentinel.
   */
  lemma {:induction false} BinaryEntryDecoded(items: seq<Item>, regs: seq<int>, acc: Snapshot, j: int)
    requires 0 <= j < |items|
    requires BinaryFrom(items, regs, acc).Some?
    requires BinaryIdDistinctAt(items, j)
    requires BinaryId(items[j]) !in acc
    ensures BinaryOutcome(items[j], regs, BinaryFrom(items, regs, acc).value)
    decreases |items|, 1
  {
    if j == 0 {
      NoOtherIdMeansDistinct(items, BinaryId, BinaryId(items[0]), 0);
      BinaryEntryFirst(items, regs, acc);
    } else {
      BinaryEntryLater(items, regs, acc, j);
    }
  }

  /** The first binary sensor is stored as the first step stores it, and later ones with other ids leave it alone. */
  lemma BinaryEntryFirst(items: seq<Item>, regs: seq<int>, acc: Snapshot)
    requires 0 < |items|
    requires BinaryFrom(items, regs, acc).Some?
    requires forall i :: 0 < i < |items| ==> BinaryId(items[i]) != BinaryId(items[0])
    requires BinaryId(items[0]) !in acc
    ensures BinaryOutcome(items[0], regs, BinaryFrom(items, regs, acc).value)
  {
    var next := BinaryStep(acc, items[0], regs).value;
    assert BinaryFrom(items, regs, acc) == BinaryFrom(items[1..], regs, next);
    forall i | 0 <= i < |items[1..]| ensures BinaryId(items[1..][i]) != BinaryId(items[0]) {
      assert items[1..][i] == items[i + 1];
    }
    BinaryFromFrame(items[1..], regs, next, BinaryId(items[0]));
  }

  /**
   * A later binary sensor is stored by the rest of the loop, which the first step does not
   * disturb.
   * The outcome is stated as `== true` so that it is checked as one fact rather than
   * clause by clause.
   */
  lemma BinaryEntryLater(items: seq<Item>, regs: seq<int>, acc: Snapshot, j: int)
    requires 0 < j < |items|
    requires BinaryFrom(items, regs, acc).Some?
    requires BinaryIdDistinctAt(items, j)
    requires BinaryId(items[j]) !in acc
    ensures BinaryOutcome(items[j], regs, BinaryFrom(items, regs, acc).value) == true
    decreases |items|, 0
  {
    BinaryTailContext(items, regs, acc, j);
    BinaryEntryDecoded(items[1..], regs, BinaryStep(acc, items[0], regs).value, j - 1);
    BinaryEntryAfterFirst(items, regs, acc, j);
  }

  /** What the rest of the loop stores for the `j`-th entry is what the whole loop stores. */
  lemma BinaryEntryAfterFirst(items: seq<Item>, regs: seq<int>, acc: Snapshot, j: int)
    requires 0 < j < |items|
    requires BinaryFrom(items, regs, acc).Some?
    requires BinaryStep(acc, items[0], regs).Some?
    requires var next := BinaryStep(acc, items[0], regs).value;
      BinaryFrom(items[1..], regs, next).Some?
      && BinaryOutcome(items[1..][j - 1], regs, BinaryFrom(items[1..], regs, next).value) == true
    ensures BinaryOutcome(items[j], regs, BinaryFrom(items, regs, acc).value) == true
  {
    BinaryFromUnfold(items, regs, acc);
    assert items[1..][j - 1] == items[j];
  }

  /** After the first step, the `j`-th entry is the `(j-1)`-th of the rest, still with a distinct id not yet stored. */
  lemma BinaryTailContext(items: seq<Item>, regs: seq<int>, acc: Snapshot, j: int)
    requires 0 < j < |items|
    requires BinaryFrom(items, regs, acc).Some?
    requires BinaryIdDistinctAt(items, j)
    requires BinaryId(items[j]) !in acc
    ensures BinaryStep(acc, items[0], regs).Some?
    ensures var next := BinaryStep(acc, items[0], regs).value;
      BinaryFrom(items, regs, acc) == BinaryFrom(items[1..], regs, next)
      && items[1..][j - 1] == items[j]
      && BinaryIdDistinctAt(items[1..], j - 1)
      && BinaryId(items[j]) !in next
  {
    BinaryFromUnfold(items, regs, acc);
    BinaryIdsDistinctInTail(items, j);
    BinaryStepFrame(acc, items[0], regs, BinaryId(items[j]));
  }

  /** What the binary loop leaves under the id of entry `it`: nothing for the sentinel, otherwise the raw word with the input type and the 1-based address. */
  ghost predicate BinaryOutcome(it: Item, regs: seq<int>, m: Snapshot) {
    var u := BinaryId(it);
    Index(regs, Pdu(it)).Some?
    && (u in m <==> Index(regs, Pdu(it)).value != SENTINEL)
    && (u in m ==> m[u] == Reading(Word(Index(regs, Pdu(it)).value), it.inputType.GetOr("input"), it.address))
  }

  /** The loop is its first step followed by the loop over the remaining entries. */
  lemma BinaryFromUnfold(items: seq<Item>, regs: seq<int>, acc: Snapshot)
    requires 0 < |items| && BinaryFrom(items, regs, acc).Some?
    ensures BinaryStep(acc, items[0], regs).Some?
    ensures BinaryFrom(items, regs, acc) == BinaryFrom(items[1..], regs, BinaryStep(acc, items[0], regs).value)
  {
  }

  /** One step leaves every other id alone. */
  lemma BinaryStepFrame(acc: Snapshot, item: Item, regs: seq<int>, u: string)
    requires BinaryStep(acc, item, regs).Some? && BinaryId(item) != u
    ensures var next := BinaryStep(acc, item, regs).value;
      (u in next <==> u in acc) && (u in acc ==> next[u] == acc[u])
  {
  }

  /** No entry other than the `j`-th has its id. */
  predicate BinaryIdDistinctAt(items: seq<Item>, j: int)
    requires 0 <= j < |items|
  {
    NoOtherId(items, BinaryId, BinaryId(items[j]), j)
  }

  /** Dropping the first entry keeps a later entry's id distinct from the others. */
  lemma BinaryIdsDistinctInTail(items: seq<Item>, j: int)
    requires 0 < j < |items|
    requires BinaryIdDistinctAt(items, j)
    ensures items[1..][j - 1] == items[j] && BinaryId(items[0]) != BinaryId(items[j])
    ensures BinaryIdDistinctAt(items[1..], j - 1)
  {
  }

  /**
   * The corrected tracker judges a binary sensor by its own register: the value it looks at
   * is the word the binary loop read at the sensor's PDU address (nothing for the sentinel).
   */
  lemma CorrectedTrackerReadsOwnRegister(items: seq<Item>, regs: seq<int>, acc: Snapshot, j: int)
    requires 0 <= j < |items|
    requires BinaryFrom(items, regs, acc).Some?
    requires BinaryIdDistinctAt(items, j)
    requires BinaryId(items[j]) !in acc
    ensures Index(regs, Pdu(items[j])).Some?
    ensures var raw := Index(regs, Pdu(items[j])).value;
      ValueAt(BinaryFrom(items, regs, acc).value, Corrected.Key(items[j]))
        == (if raw == SENTINEL then None else Some(Word(raw)))
  {
    BinaryEntryDecoded(items, regs, acc, j);
  }

  /** A "running" binary sensor without `unique_id`, like the pump and compressor entries of the catalog. */
  function RunningSensor(address: int): Item {
    Item(address, None, None, None, None, Some("running"), None, None, None, None)
  }

  /** The snapshot the binary loop stores for a sensor at `a` reading 1 and one at `a + 1` reading 0. */
  function AdjacentData(a: int): Snapshot {
    map[BinaryId(RunningSensor(a)) := Reading(Word(1), "input", a),
        BinaryId(RunningSensor(a + 1)) := Reading(Word(0), "input", a + 1)]
  }

  /** A `binary_*` id is never a `last_triggered_*` key. */
  lemma BinaryIdIsNotStampKey(suffix: string)
    ensures !IsLastTriggeredKey("binary_" + suffix)
  {
    assert ("binary_" + suffix)[0] == 'b';
  }

  /**
   * The two sensors are stored under different ids; the source's tracker looks the first up
   * under the second's id and the second up under an id nothing was stored under; no id is
   * a `last_triggered_*` key.
   */
  lemma AdjacentIds(a: int)
    ensures BinaryId(RunningSensor(a)) != BinaryId(RunningSensor(a + 1))
    ensures AsWritten.Key(RunningSensor(a)) == BinaryId(RunningSensor(a + 1))
    ensures AsWritten.Key(RunningSensor(a + 1)) !in AdjacentData(a)
    ensures TrackIdsWellFormed(AsWritten, [RunningSensor(a), RunningSensor(a + 1)])
    ensures TrackIdsWellFormed(Corrected, [RunningSensor(a), RunningSensor(a + 1)])
    ensures StampsOnlyUnderLastTriggered(AdjacentData(a))
  {
    AdjacentIdsDiffer(a);
    AdjacentLookupMisses(a);
    AdjacentIdsWellFormed(a);
  }

  /** The source's tracker looks the sensor at `a + 1` up under an id nothing was stored under. */
  lemma AdjacentLookupMisses(a: int)
    ensures AsWritten.Key(RunningSensor(a + 1)) !in AdjacentData(a)
  {
    var k := AsWritten.Key(RunningSensor(a + 1));
    assert k == "binary_" + IntToString(a + 1);
    if k == BinaryId(RunningSensor(a)) {
      PrefixedIdsInjective("binary_", a + 1, a - 1);
    }
    if k == BinaryId(RunningSensor(a + 1)) {
      PrefixedIdsInjective("binary_", a + 1, a);
    }
  }

  /** No id of the two sensors, under either tracker, is a `last_triggered_*` key. */
  lemma AdjacentIdsWellFormed(a: int)
    ensures TrackIdsWellFormed(AsWritten, [RunningSensor(a), RunningSensor(a + 1)])
    ensures TrackIdsWellFormed(Corrected, [RunningSensor(a), RunningSensor(a + 1)])
    ensures StampsOnlyUnderLastTriggered(AdjacentData(a))
  {
    BinaryIdIsNotStampKey(IntToString(a - 1));
    BinaryIdIsNotStampKey(IntToString(a));
    BinaryIdIsNotStampKey(IntToString(a + 1));
  }

  /** The binary loop over the two sensors stores each word under the sensor's own id. */
  lemma AdjacentSnapshot(a: int, regs: seq<int>)
    requires 1 <= a < |regs| && regs[a - 1] == 1 && regs[a] == 0
    ensures BinaryFrom([RunningSensor(a), RunningSensor(a + 1)], regs, map[]) == Some(AdjacentData(a))
  {
    var first, second := RunningSensor(a), RunningSensor(a + 1);
    BinaryStepStores(map[], first, regs);
    var d1 := map[BinaryId(first) := Reading(Word(1), "input", a)];
    AdjacentIdsDiffer(a);
    BinaryStepStores(d1, second, regs);
    BinaryFromPair(first, second, regs, map[]);
  }

  /** The sensors at `a` and `a + 1` are stored under different ids. */
  lemma AdjacentIdsDiffer(a: int)
    ensures BinaryId(RunningSensor(a)) != BinaryId(RunningSensor(a + 1))
  {
    if BinaryId(RunningSensor(a)) == BinaryId(RunningSensor(a + 1)) {
      PrefixedIdsInjective("binary_", a - 1, a);
    }
  }

  /** A binary sensor not yet in the snapshot whose register holds a word other than the sentinel is stored with it. */
  lemma BinaryStepStores(acc: Snapshot, item: Item, regs: seq<int>)
    requires BinaryId(item) !in acc
    requires 0 <= Pdu(item) < |regs| && regs[Pdu(item)] != SENTINEL
    ensures BinaryStep(acc, item, regs)
      == Some(acc[BinaryId(item) := Reading(Word(regs[Pdu(item)]), item.inputType.GetOr("input"), item.address)])
  {
    assert Index(regs, Pdu(item) - INPUT_START) == Some(regs[Pdu(item)]);
  }

  /** The binary loop over two sensors is their two steps in order. */
  lemma BinaryFromPair(first: Item, second: Item, regs: seq<int>, acc: Snapshot)
    ensures BinaryFrom([first, second], regs, acc)
      == match BinaryStep(acc, first, regs)
         case None => None
         case Some(d) => BinaryStep(d, second, regs)
  {
    assert [first, second][1..] == [second] && [second][1..] == [];
    match BinaryStep(acc, first, regs)
    case None =>
    case Some(d) =>
      assert BinaryFrom([first, second], regs, acc) == BinaryFrom([second], regs, d);
      match BinaryStep(d, second, regs)
      case None =>
      case Some(e) => assert BinaryFrom([second], regs, d) == BinaryFrom([], regs, e);
  }

  /**
   * The source's tracker sees the second sensor's 0 under the first one's lookup id and
   * records a start of the first; the second one's lookup id holds nothing, so it is never
   * recorded.
   */
  lemma AsWrittenRecordsFirst(a: int, now: Time)
    requires TrackIdsWellFormed(AsWritten, [RunningSensor(a), RunningSensor(a + 1)])
    requires StampsOnlyUnderLastTriggered(AdjacentData(a))
    ensures var lt := TrackFrom(AsWritten, [RunningSensor(a), RunningSensor(a + 1)], AdjacentData(a), map[], map[], now).1;
      a in lt && a + 1 !in lt
  {
    AdjacentIds(a);
    var bs, data := [RunningSensor(a), RunningSensor(a + 1)], AdjacentData(a);
    assert RisingEdge(AsWritten, bs[0], data, map[]);
    assert !RisingEdge(AsWritten, bs[1], data, map[]);
    assert EdgeAt(AsWritten, bs, data, map[], a);
    assert !EdgeAt(AsWritten, bs, data, map[], a + 1);
    TrackedTimes(AsWritten, bs, data, map[], map[], now, a);
    TrackedTimes(AsWritten, bs, data, map[], map[], now, a + 1);
  }

  /** The corrected tracker sees the first sensor off and the second on, and records the second only. */
  lemma CorrectedRecordsSecond(a: int, now: Time)
    requires TrackIdsWellFormed(Corrected, [RunningSensor(a), RunningSensor(a + 1)])
    requires StampsOnlyUnderLastTriggered(AdjacentData(a))
    ensures TrackFrom(Corrected, [RunningSensor(a), RunningSensor(a + 1)], AdjacentData(a), map[], map[], now).1 == map[a + 1 := now]
  {
    AdjacentIds(a);
    var bs, data := [RunningSensor(a), RunningSensor(a + 1)], AdjacentData(a);
    var lt := TrackFrom(Corrected, bs, data, map[], map[], now).1;
    assert !RisingEdge(Corrected, bs[0], data, map[]);
    assert RisingEdge(Corrected, bs[1], data, map[]);
    forall x ensures x in lt <==> x == a + 1 {
      TrackedTimes(Corrected, bs, data, map[], map[], now, x);
      assert EdgeAt(Corrected, bs, data, map[], x) <==> x == a + 1;
    }
    TrackedTimes(Corrected, bs, data, map[], map[], now, a + 1);
  }

  /**
   * The source's tracker at work on two "running" sensors without `unique_id` at adjacent
   * addresses `a` and `a + 1` (the pump at 29 and the compressor at 30 in the catalog):
   * with the first one's register reading 1 (off) and the second one's 0 (on), the first
   * cycle records a start of the first sensor, because its lookup id is the one the second
   * one's value was stored under, and never one of the second. The corrected tracker
   * records the second sensor only.
   */
  lemma AsWrittenTrackerReadsNeighbour(a: int, regs: seq<int>, now: Time)
    requires 1 <= a < |regs| && regs[a - 1] == 1 && regs[a] == 0
    ensures var bs := [RunningSensor(a), RunningSensor(a + 1)];
      BinaryFrom(bs, regs, map[]).Some?
      && var data := BinaryFrom(bs, regs, map[]).value;
      ValueAt(data, BinaryId(bs[0])) == Some(Word(1))
      && ValueAt(data, BinaryId(bs[1])) == Some(Word(0))
      && TrackIdsWellFormed(AsWritten, bs) && TrackIdsWellFormed(Corrected, bs)
      && StampsOnlyUnderLastTriggered(data)
      && a in TrackFrom(AsWritten, bs, data, map[], map[], now).1
      && a + 1 !in TrackFrom(AsWritten, bs, data, map[], map[], now).1
      && TrackFrom(Corrected, bs, data, map[], map[], now).1 == map[a + 1 := now]
  {
    AdjacentIds(a);
    AdjacentSnapshot(a, regs);
    assert ValueAt(AdjacentData(a), BinaryId(RunningSensor(a))) == Some(Word(1));
    AsWrittenRecordsFirst(a, now);
    CorrectedRecordsSecond(a, now);
  }
}
