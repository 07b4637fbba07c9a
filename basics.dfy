/** Failure-compatible wrappers shared by every module of the model. */
module Basics {

  datatype Option<+T> = None | Some(value: T)

  datatype Result<+T, +E> = Ok(value: T) | Err(error: E)

  /** The outcome of a validation that either passes or raises an error. */
  datatype Outcome<+E> = Pass | Fail(error: E)

  /** No element occurs twice. */
  predicate Distinct<T(==)>(s: seq<T>)
  {
    forall i, j :: 0 <= i < j < |s| ==> s[i] != s[j]
  }

  /** A distinct sequence holds each value at most once. */
  lemma {:induction false} DistinctMultiplicity<T>(s: seq<T>, x: T)
    requires Distinct(s)
    ensures multiset(s)[x] <= 1
  {
    if s != [] {
      var t := s[..|s| - 1];
      assert s == t + [s[|s| - 1]];
      assert Distinct(t);
      DistinctMultiplicity(t, x);
      if x == s[|s| - 1] {
        assert x !in t;
      }
    }
  }

  /** Being distinct depends only on the multiset of elements. */
  lemma DistinctPermutation<T>(a: seq<T>, b: seq<T>)
    requires Distinct(a) && multiset(a) == multiset(b)
    ensures Distinct(b)
  {
    forall i, j | 0 <= i < j < |b|
      ensures b[i] != b[j]
    {
      if b[i] == b[j] {
        var x := b[i];
        assert b == b[..j] + [b[j]] + b[j + 1..];
        assert x in b[..j];
        assert multiset(b[..j])[x] >= 1;
        assert multiset(b)[x] >= 2;
        DistinctMultiplicity(a, x);
        assert false;
      }
    }
  }
}
