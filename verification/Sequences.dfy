/** Sequences without repetitions. */
module Sequences {

  ghost predicate Distinct<T>(s: seq<T>) {
    forall i, j :: 0 <= i < j < |s| ==> s[i] != s[j]
  }

  /** The elements of `s` in the order of their first occurrence. */
  function FirstOccurrences<T(==)>(s: seq<T>): seq<T> {
    if s == [] then []
    else
      var init, last := s[..|s| - 1], s[|s| - 1];
      if last in init then FirstOccurrences(init) else FirstOccurrences(init) + [last]
  }

  lemma {:induction false} FirstOccurrencesAreDistinct<T>(s: seq<T>)
    ensures Distinct(FirstOccurrences(s))
    ensures forall x :: x in FirstOccurrences(s) <==> x in s
  {
    if s != [] {
      var init, last := s[..|s| - 1], s[|s| - 1];
      FirstOccurrencesAreDistinct(init);
      assert s == init + [last];
    }
  }

  /** Looking at one more element adds it if it is new. */
  lemma FirstOccurrencesStep<T>(s: seq<T>, i: nat)
    requires i < |s|
    ensures FirstOccurrences(s[..i + 1])
         == FirstOccurrences(s[..i]) + if s[i] in FirstOccurrences(s[..i]) then [] else [s[i]]
  {
    assert s[..i + 1][..i] == s[..i];
    FirstOccurrencesAreDistinct(s[..i]);
  }

  lemma {:induction false} FirstOccurrencesPrefix<T>(s: seq<T>, n: nat)
    requires n <= |s|
    ensures FirstOccurrences(s[..n]) <= FirstOccurrences(s)
  {
    if n < |s| {
      FirstOccurrencesPrefix(s[..|s| - 1], n);
      assert s[..|s| - 1][..n] == s[..n];
    } else {
      assert s[..n] == s;
    }
  }

  lemma {:induction false} DistinctFits<T>(s: seq<T>, bound: set<T>)
    requires Distinct(s) && forall x :: x in s ==> x in bound
    ensures |s| <= |bound|
    decreases |s|
  {
    if s != [] {
      DistinctFits(s[1..], bound - {s[0]});
    }
  }

  lemma {:induction false} DistinctSize<T>(s: seq<T>, elems: set<T>)
    requires Distinct(s) && forall x :: x in elems <==> x in s
    ensures |s| == |elems|
    decreases |s|
  {
    if s != [] {
      DistinctSize(s[1..], elems - {s[0]});
    }
  }
}
