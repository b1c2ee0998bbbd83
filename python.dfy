/**
 * The few Python semantics the integration relies on, written out: list indexing (a
 * negative index counts from the end, an index outside the list raises IndexError), list
 * slicing (bounds are clamped, never raising), `str * int` (repetition) and `int(x)` on a
 * float (truncation toward zero).
 */
module Python {
  import opened Wrappers

  /** The exceptions the modelled code can raise; `ModbusException` is any exception of the Modbus client. */
  datatype PyError = IndexError | TypeError | AttributeError | ValueError | ZeroDivisionError | ModbusException

  /** `s[i]`: `None` stands for IndexError. */
  function Index<T>(s: seq<T>, i: int): (r: Option<T>)
    ensures r.None? <==> i >= |s| || i < -|s|
    ensures 0 <= i < |s| ==> r == Some(s[i])
    ensures -|s| <= i < 0 ==> r == Some(s[|s| + i])
  {
    if 0 <= i < |s| then Some(s[i])
    else if -|s| <= i < 0 then Some(s[|s| + i])
    else None
  }

  /** A slice bound after Python's normalisation: negative counts from the end, then clamped to `[0, n]`. */
  function SliceBound(i: int, n: nat): (r: nat)
    ensures r <= n
  {
    if i < 0 then (if i + n < 0 then 0 else i + n)
    else if i > n then n
    else i
  }

  /** `s[lo:hi]`. */
  function Slice<T>(s: seq<T>, lo: int, hi: int): seq<T> {
    var a, b := SliceBound(lo, |s|), SliceBound(hi, |s|);
    if a < b then s[a..b] else []
  }

  /** For a non-negative start and length the slice is the part of `s[lo..lo+n]` that exists. */
  lemma SliceFrom<T>(s: seq<T>, lo: int, n: int)
    requires 0 <= lo && 0 <= n
    ensures lo >= |s| ==> Slice(s, lo, lo + n) == []
    ensures lo < |s| ==> Slice(s, lo, lo + n) == s[lo..if lo + n <= |s| then lo + n else |s|]
  {
  }

  /**
   * `s * k` for a string and an int: `k` copies of `s`, empty when `k <= 0`. The result
   * starts with `s` and repeats with period `|s|`, so each block of `|s|` characters is `s`.
   */
  function Repeat(s: string, k: int): (r: string)
    ensures |r| == if k <= 0 then 0 else k * |s|
    ensures |s| <= |r| ==> r[..|s|] == s
    ensures forall i :: 0 <= i < |r| - |s| ==> r[i + |s|] == r[i]
    decreases k
  {
    if k <= 0 then ""
    else
      var rest := Repeat(s, k - 1);
      assert forall i :: 0 <= i < |rest| ==> (s + rest)[i + |s|] == rest[i];
      assert forall i :: 0 <= i < |rest| && i < |s| ==> rest[i] == s[i];
      s + rest
  }

  /** `int(x)` on a float: the integer part, rounding toward zero. */
  function Trunc(x: real): (r: int)
    ensures 0.0 <= x ==> 0 <= r && r as real <= x < r as real + 1.0
    ensures x < 0.0 ==> r <= 0 && r as real - 1.0 < x <= r as real
  {
    if x >= 0.0 then x.Floor else -((-x).Floor)
  }

  /** Python's `max(a, b)` and `min(a, b)` on numbers. */
  function Max(a: real, b: real): real { if b > a then b else a }
  function Min(a: real, b: real): real { if b < a then b else a }
}
