/** What several modules say of sequences. */
module Sequences {

  ghost predicate Distinct<T>(s: seq<T>) {
    forall i, j | 0 <= i < j < |s| :: s[i] != s[j]
  }

  /** s with x at index p, and what was there and after it moved on by one. */
  ghost function Spliced<T>(s: seq<T>, p: nat, x: T): (r: seq<T>)
    requires p <= |s|
    ensures |r| == |s| + 1
  {
    seq(|s| + 1, i requires 0 <= i < |s| + 1 => if i < p then s[i] else if i == p then x else s[i - 1])
  }

  lemma DistinctSpliced<T>(s: seq<T>, p: nat, x: T)
    requires p <= |s| && Distinct(s) && x !in s
    ensures Distinct(Spliced(s, p, x))
  {
  }

  lemma SplicedMultiset<T>(s: seq<T>, p: nat, x: T)
    requires p <= |s|
    ensures multiset(Spliced(s, p, x)) == multiset(s) + multiset{x}
  {
    var left, right := s[..p], s[p..];
    assert Spliced(s, p, x) == left + [x] + right;
    assert s == left + right;
  }
}
