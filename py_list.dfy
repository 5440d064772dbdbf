/**
 * The parts of Python's list semantics the picker relies on: slicing
 * `s[start:stop]` with negative and out-of-range bounds, `s[start:]`,
 * and the "no element twice" property.
 */
module PyList {

  function Min(a: int, b: int): int { if a < b then a else b }

  function Max(a: int, b: int): int { if a < b then b else a }

  /** Where a slice bound lands in a list of length `len`: a negative bound
      counts from the end, and every bound is clamped into [0, len]. */
  function SliceBound(i: int, len: nat): (r: nat)
    ensures r <= len
    ensures 0 <= i <= len ==> r == i
    ensures -(len as int) <= i < 0 ==> r == len + i
    ensures i < -(len as int) ==> r == 0
    ensures len < i ==> r == len
  {
    if i < 0 then Max(len + i, 0) else Min(i, len)
  }

  /** `s[start:stop]`: never fails, and is empty when the bounds cross. */
  function Slice<T>(s: seq<T>, start: int, stop: int): seq<T>
  {
    var lo, hi := SliceBound(start, |s|), SliceBound(stop, |s|);
    if lo <= hi then s[lo..hi] else []
  }

  /** When `start <= stop` a slice holds at most `stop - start` elements,
      whatever the signs of the bounds (`s[0:-1]` shows why the order matters). */
  lemma SliceLength<T>(s: seq<T>, start: int, stop: int)
    requires start <= stop
    ensures |Slice(s, start, stop)| <= Max(stop - start, 0)
  {
    var lo, hi := SliceBound(start, |s|), SliceBound(stop, |s|);
    if start < 0 <= stop {
      assert hi <= stop;
      assert lo >= |s| + start;
    }
  }

  /** With bounds `0 <= start <= stop`, a slice is the plain subsequence cut at the end. */
  lemma SliceWindow<T>(s: seq<T>, start: int, stop: int)
    requires 0 <= start <= stop
    ensures Slice(s, start, stop) == s[Min(start, |s|)..Min(stop, |s|)]
  {
  }

  /** `s[start:]` */
  function SliceFrom<T>(s: seq<T>, start: int): seq<T>
  {
    Slice(s, start, |s|)
  }

  /** `s[-n:]`: the last `n` elements; for `n == 0` the whole list, since `-0 == 0`. */
  function LastN<T>(s: seq<T>, n: nat): seq<T>
  {
    SliceFrom(s, -(n as int))
  }

  /** The last `k` elements, or all of them when there are fewer. */
  function Suffix<T>(s: seq<T>, k: nat): (r: seq<T>)
    ensures |r| == Min(k, |s|)
  {
    s[|s| - Min(k, |s|)..]
  }

  /** `s[-n:]` is the last `n` elements for `n > 0`, and the whole list for `n == 0`. */
  lemma LastNIsSuffix<T>(s: seq<T>, n: nat)
    ensures n > 0 ==> LastN(s, n) == Suffix(s, n)
    ensures n == 0 ==> LastN(s, n) == s
  {
  }

  predicate NoDup<T(==)>(s: seq<T>)
  {
    forall i, j :: 0 <= i < j < |s| ==> s[i] != s[j]
  }
}
