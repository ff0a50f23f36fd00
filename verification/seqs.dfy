/** The JavaScript array operations the watcher relies on, over Dafny sequences. */
module Seqs {
  import opened Wrappers

  /** `i` is the index of the first element of `s` equal to `x`. */
  ghost predicate IsFirst<T>(s: seq<T>, x: T, i: int) {
    0 <= i < |s| && s[i] == x && forall j :: 0 <= j < i ==> s[j] != x
  }

  /** The index `find`/`findIndex`/`indexOf` report for `x`, or `None` when `x` is absent. */
  function IndexOf<T(==)>(s: seq<T>, x: T): (r: Option<nat>)
    ensures r.None? <==> x !in s
    ensures r.Some? ==> IsFirst(s, x, r.value)
  {
    if |s| == 0 then None
    else if s[0] == x then Some(0)
    else match IndexOf(s[1..], x)
      case None => None
      case Some(i) => Some(i + 1)
  }

  /** There is only one first occurrence. */
  lemma FirstIsUnique<T>(s: seq<T>, x: T, i: int, k: int)
    requires IsFirst(s, x, i) && IsFirst(s, x, k)
    ensures i == k
  {
  }

  /** `s.splice(i, 1)` for an index inside `s`. */
  function RemoveAt<T>(s: seq<T>, i: nat): (r: seq<T>)
    requires i < |s|
    ensures |r| == |s| - 1
    ensures forall j :: 0 <= j < i ==> r[j] == s[j]
    ensures forall j :: i <= j < |r| ==> r[j] == s[j + 1]
    ensures multiset(r) + multiset{s[i]} == multiset(s)
  {
    assert s == s[..i] + [s[i]] + s[i + 1..];
    s[..i] + s[i + 1..]
  }

  /** `s.splice(start, 1)` with JavaScript's rules for the start index: a negative
      start counts from the end and is clamped at 0, a start past the end removes nothing. */
  function SpliceOne<T>(s: seq<T>, start: int): (r: seq<T>)
    ensures 0 <= start < |s| ==> r == RemoveAt(s, start)
    ensures start < 0 && |s| > 0 ==> r == RemoveAt(s, if |s| + start < 0 then 0 else |s| + start)
    ensures start >= |s| || |s| == 0 ==> r == s
  {
    var k := if start < 0 then (if |s| + start < 0 then 0 else |s| + start) else start;
    if k < |s| then RemoveAt(s, k) else s
  }

  /** `s.indexOf(x)`: the first index of `x`, or -1. */
  function JsIndexOf<T(==)>(s: seq<T>, x: T): (r: int)
    ensures r == -1 <==> x !in s
    ensures r != -1 ==> IsFirst(s, x, r)
  {
    match IndexOf(s, x)
    case None => -1
    case Some(i) => i
  }

  /** `s.splice(s.indexOf(x), 1)`: drops the first `x`; when `x` is absent the index is -1,
      so the last element of a non-empty `s` goes instead. */
  function SpliceIndexOf<T(==)>(s: seq<T>, x: T): (r: seq<T>)
    ensures x in s ==> exists i :: IsFirst(s, x, i) && r == RemoveAt(s, i)
    ensures x !in s && |s| > 0 ==> r == s[..|s| - 1]
    ensures |s| == 0 ==> r == s
  {
    SpliceOne(s, JsIndexOf(s, x))
  }
}
