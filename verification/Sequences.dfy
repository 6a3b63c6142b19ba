/** Sequences: binary search and reversal. */
module Sequences {
  /** What a binary search for a key may return: any position that holds it, or the only one where it
      could be inserted. With several equal keys the library does not say which. */
  datatype SearchResult = Found(index: nat) | NotFound(index: nat)

  ghost predicate IsSearchResult(keys: seq<nat>, key: nat, r: SearchResult) {
    match r
    case Found(i) => i < |keys| && keys[i] == key
    case NotFound(i) =>
      i <= |keys| && (forall k :: 0 <= k < i ==> keys[k] < key) && (forall k :: i <= k < |keys| ==> key < keys[k])
  }

  function Reverse<T>(s: seq<T>): seq<T> {
    if s == [] then [] else [s[|s| - 1]] + Reverse(s[..|s| - 1])
  }

  lemma ReverseAppends<T>(s: seq<T>, x: T)
    ensures Reverse(s + [x]) == [x] + Reverse(s)
  {
    assert (s + [x])[..|s|] == s;
  }
}
