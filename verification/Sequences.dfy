/** Facts about sequences that several components share. */
module Sequences {

  ghost predicate Distinct<T>(s: seq<T>) {
    forall i, j :: 0 <= i < j < |s| ==> s[i] != s[j]
  }

  lemma {:induction false} DistinctMultiset<T>(s: seq<T>)
    requires Distinct(s)
    ensures forall x :: multiset(s)[x] == if x in s then 1 else 0
  {
    if s != [] {
      var init, last := s[..|s| - 1], s[|s| - 1];
      DistinctMultiset(init);
      assert s == init + [last];
    }
  }

  lemma {:induction false} DistinctFromMultiset<T>(s: seq<T>)
    requires forall x :: multiset(s)[x] <= 1
    ensures Distinct(s)
  {
    forall i, j | 0 <= i < j < |s|
      ensures s[i] != s[j]
    {
      assert s == s[..j] + [s[j]] + s[j + 1..];
      assert s[i] in s[..j] by { assert s[i] == s[..j][i]; }
      assert multiset(s) == multiset(s[..j]) + multiset{s[j]} + multiset(s[j + 1..]);
      assert multiset(s)[s[j]] >= multiset(s[..j])[s[j]] + 1;
    }
  }

  /** A repetition-free list of some elements of `s` is a permutation of `s`
      exactly when `s` repeats nothing and the list omits nothing. */
  lemma {:induction false} PermutationIffComplete<T>(list: seq<T>, s: seq<T>)
    requires Distinct(list) && forall x :: x in list ==> x in s
    ensures multiset(list) == multiset(s) <==> Distinct(s) && forall x :: x in s ==> x in list
  {
    DistinctMultiset(list);
    if multiset(list) == multiset(s) {
      DistinctFromMultiset(s);
      forall x | x in s
        ensures x in list
      {
        assert x in multiset(s);
      }
    }
    if Distinct(s) && forall x :: x in s ==> x in list {
      DistinctMultiset(s);
      assert multiset(list) == multiset(s);
    }
  }
}
