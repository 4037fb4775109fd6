/** Small notions that several components share. */
module Basics {
  datatype Option<T> = None | Some(value: T)

  ghost predicate Distinct<T>(s: seq<T>) {
    forall i, j :: 0 <= i < j < |s| ==> s[i] != s[j]
  }

  /** What a chain of links leads to from its `j`-th place: an index, or -1 beyond its ends. */
  function At(chain: seq<int>, j: int): int {
    if 0 <= j < |chain| then chain[j] else -1
  }
}
