/**
 Notions used throughout.
 */
module Basics {

  datatype Option<+T> = None | Some(value: T)

  ghost predicate Distinct(s: seq<int>) {
    forall i, j :: 0 <= i < j < |s| ==> s[i] != s[j]
  }

  /** s with x at position i, or s itself when there is no such position. */
  ghost function Put<T>(s: seq<T>, i: int, x: T): (s': seq<T>)
    ensures |s'| == |s|
  {
    if 0 <= i < |s| then s[i := x] else s
  }
}
