/**
 * Python's (and numpy's) slice `s[start:stop]` with step 1: a negative bound counts from the
 * end, and both bounds are clamped to `[0, len(s)]`; a slice whose clamped bounds are out of
 * order is empty. Slicing never pads and never raises.
 */
module Slicing {

  /** The index a slice bound `i` designates in a sequence of length `n`. */
  function Clamp(i: int, n: nat): (c: nat)
    ensures c <= n
    ensures 0 <= i ==> c == Min(i, n)
    ensures i < 0 ==> c == Max(0, n + i)
  {
    if i < 0 then (if n + i < 0 then 0 else n + i)
    else if i <= n then i else n
  }

  function Min(a: int, b: int): int { if a <= b then a else b }

  function Max(a: int, b: int): int { if a <= b then b else a }

  /** `s[start:stop]`. */
  function Slice<T>(s: seq<T>, start: int, stop: int): (r: seq<T>)
    ensures |r| == Max(0, Clamp(stop, |s|) - Clamp(start, |s|))
    ensures |r| <= |s|
    ensures forall j :: 0 <= j < |r| ==> r[j] == s[Clamp(start, |s|) + j]
  {
    var lo, hi := Clamp(start, |s|), Clamp(stop, |s|);
    if lo < hi then s[lo..hi] else []
  }

  /**
   * The slice `s[start:start+n]` taken with non-negative bounds is the run of at most `n`
   * elements of `s` from `start` on: it is cut short at the end of `s` and never padded.
   */
  lemma SliceFrom<T>(s: seq<T>, start: nat, n: nat)
    ensures |Slice(s, start, start + n)| == Max(0, Min(n, |s| - start))
    ensures |Slice(s, start, start + n)| <= n
    ensures var r := Slice(s, start, start + n);
              forall j :: 0 <= j < |r| ==> start + j < |s| && r[j] == s[start + j]
    ensures start + n <= |s| ==> Slice(s, start, start + n) == s[start..start + n]
  {
  }

  /** When both bounds are within `[0, len(s)]`, the slice is Dafny's subsequence `s[start..stop]`. */
  lemma SliceWithinBounds<T>(s: seq<T>, start: int, stop: int)
    requires 0 <= start <= stop <= |s|
    ensures Slice(s, start, stop) == s[start..stop]
  {
  }
}
