/** Small notions on sequences shared by the models. */
module Seqs {
  ghost predicate Distinct<T>(s: seq<T>) {
    forall i, j :: 0 <= i < j < |s| ==> s[i] != s[j]
  }

  lemma {:induction false} DistinctCons<T>(x: T, s: seq<T>)
    requires Distinct(s) && x !in s
    ensures Distinct([x] + s)
  {
  }

  /** `s` with entry `i` replaced, or `s` itself when there is no such entry. */
  function Put<T>(s: seq<T>, i: nat, x: T): (r: seq<T>)
    ensures |r| == |s|
  {
    if i < |s| then s[i := x] else s
  }
}
