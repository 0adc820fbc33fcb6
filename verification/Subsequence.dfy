/** Subsequences: what is left of a sequence when some of its elements are dropped, the others keeping their order. */
module Subsequences {

  ghost function Filter<T>(s: seq<T>, p: T -> bool): (r: seq<T>)
    ensures forall x | x in r :: p(x) && x in s
  {
    if s == [] then []
    else
      var r := Filter(s[..|s| - 1], p);
      if p(s[|s| - 1]) then r + [s[|s| - 1]] else r
  }

  ghost predicate Subsequence<T>(a: seq<T>, b: seq<T>) {
    a == [] ||
    (b != [] &&
     ((a[|a| - 1] == b[|b| - 1] && Subsequence(a[..|a| - 1], b[..|b| - 1])) || Subsequence(a, b[..|b| - 1])))
  }

  /** The places of a's elements in b, each once and in order. */
  ghost predicate Embeds<T>(f: seq<nat>, a: seq<T>, b: seq<T>) {
    && |f| == |a|
    && (forall i | 0 <= i < |f| :: f[i] < |b| && b[f[i]] == a[i])
    && (forall i, j | 0 <= i < j < |f| :: f[i] < f[j])
  }

  lemma {:induction false} SubsequenceEmbeds<T>(a: seq<T>, b: seq<T>) returns (f: seq<nat>)
    requires Subsequence(a, b)
    ensures Embeds(f, a, b)
    decreases |b|
  {
    if a == [] {
      f := [];
    } else if a[|a| - 1] == b[|b| - 1] && Subsequence(a[..|a| - 1], b[..|b| - 1]) {
      var g := SubsequenceEmbeds(a[..|a| - 1], b[..|b| - 1]);
      f := g + [|b| - 1];
    } else {
      f := SubsequenceEmbeds(a, b[..|b| - 1]);
    }
  }

  lemma SubsequenceAppend<T>(a: seq<T>, b: seq<T>, x: T)
    requires Subsequence(a, b)
    ensures Subsequence(a, b + [x]) && Subsequence(a + [x], b + [x])
  {
    assert (b + [x])[..|b|] == b && (a + [x])[..|a|] == a;
  }

  /** A subsequence may lose elements at its end. */
  lemma {:induction false} SubsequencePrefix<T>(a: seq<T>, c: seq<T>, b: seq<T>)
    requires Subsequence(a + c, b)
    ensures Subsequence(a, b)
    decreases |b|, |c|
  {
    if c == [] {
      assert a + c == a;
    } else if b != [] {
      var ac, b' := a + c, b[..|b| - 1];
      if Subsequence(ac[..|ac| - 1], b') {
        assert ac[..|ac| - 1] == a + c[..|c| - 1];
        SubsequencePrefix(a, c[..|c| - 1], b');
      } else {
        SubsequencePrefix(a, c, b');
      }
    }
  }

  lemma {:induction false} FilterKeepsSubsequence<T>(a: seq<T>, b: seq<T>, p: T -> bool)
    requires Subsequence(a, b)
    ensures Subsequence(Filter(a, p), Filter(b, p))
    decreases |b|
  {
    if a != [] {
      var a', b', x := a[..|a| - 1], b[..|b| - 1], b[|b| - 1];
      if a[|a| - 1] == x && Subsequence(a', b') {
        FilterKeepsSubsequence(a', b', p);
        if p(x) { SubsequenceAppend(Filter(a', p), Filter(b', p), x); }
      } else {
        FilterKeepsSubsequence(a, b', p);
        if p(x) { SubsequenceAppend(Filter(a, p), Filter(b', p), x); }
      }
    }
  }

  /** What passes of a beginning is a beginning of what passes. */
  lemma {:induction false} FilterPrefix<T>(a: seq<T>, c: seq<T>, p: T -> bool)
    ensures Filter(a, p) <= Filter(a + c, p)
  {
    if c == [] {
      assert a + c == a;
    } else {
      assert (a + c)[..|a + c| - 1] == a + c[..|c| - 1];
      FilterPrefix(a, c[..|c| - 1], p);
    }
  }

  lemma SubsequenceAfter<T>(a: seq<T>, b: seq<T>, c: seq<T>)
    requires a <= b && Subsequence(b, c)
    ensures Subsequence(a, c)
  {
    assert b == a + b[|a|..];
    SubsequencePrefix(a, b[|a|..], c);
  }

  lemma FilterAppend<T>(s: seq<T>, x: T, p: T -> bool)
    ensures Filter(s + [x], p) == if p(x) then Filter(s, p) + [x] else Filter(s, p)
  {
    assert (s + [x])[..|s|] == s;
  }

  lemma {:induction false} FilterTwice<T>(s: seq<T>, p: T -> bool, q: T -> bool, both: T -> bool)
    requires forall x :: both(x) <==> p(x) && q(x)
    ensures Filter(Filter(s, p), q) == Filter(s, both)
  {
    if s != [] {
      var n := |s| - 1;
      FilterTwice(s[..n], p, q, both);
      if p(s[n]) { FilterAppend(Filter(s[..n], p), s[n], q); }
    }
  }

  lemma SubsequenceMembers<T>(a: seq<T>, b: seq<T>)
    requires Subsequence(a, b)
    ensures forall x | x in a :: x in b
  {
    var f := SubsequenceEmbeds(a, b);
  }
}
