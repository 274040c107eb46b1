/** Sequences without repetition. */
module Distinctness {
  predicate FirstAt<T(==)>(s: seq<T>, i: int) {
    0 <= i < |s| ==> s[i] !in s[..i]
  }

  ghost predicate Distinct<T>(s: seq<T>) {
    forall i {:trigger FirstAt(s, i)} :: FirstAt(s, i)
  }

  lemma {:induction false} DistinctFits<T>(s: seq<T>, bound: set<T>)
    requires Distinct(s) && forall x :: x in s ==> x in bound
    ensures |s| <= |bound|
  {
    if s != [] {
      var n := |s| - 1;
      assert FirstAt(s, n);
      forall i ensures FirstAt(s[..n], i) {
        assert FirstAt(s, i);
        assert 0 <= i < n ==> s[..n][..i] == s[..i];
      }
      DistinctFits(s[..n], bound - {s[n]});
    }
  }

  lemma DistinctNext<T>(s: seq<T>, x: T)
    requires Distinct(s) && x !in s
    ensures Distinct(s + [x])
  {
    forall i ensures FirstAt(s + [x], i) {
      assert FirstAt(s, i);
      assert 0 <= i <= |s| ==> (s + [x])[..i] == s[..i];
    }
  }
}
