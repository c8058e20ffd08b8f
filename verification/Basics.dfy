/** What several modules share. */
module Basics {

  datatype Option<T> = None | Some(value: T)

  ghost predicate Distinct<T>(s: seq<T>) {
    forall i, j :: 0 <= i < j < |s| ==> s[i] != s[j]
  }

  /** The sequence without its element number i. */
  function Drop<T>(s: seq<T>, i: nat): seq<T>
    requires i < |s|
  {
    s[..i] + s[i + 1..]
  }

  lemma DropAt<T>(s: seq<T>, i: nat)
    requires i < |s|
    ensures |Drop(s, i)| == |s| - 1
    ensures forall k :: 0 <= k < |s| - 1 ==> Drop(s, i)[k] == s[if k < i then k else k + 1]
  {
  }
}
