/** Sequences used as JavaScript arrays and as insertion-ordered JavaScript `Set`s. */
module Seqs {

  /** No element occurs twice: the sequence is the iteration order of a set. */
  predicate Distinct<T(==)>(s: seq<T>) {
    forall i, j :: 0 <= i < j < |s| ==> s[i] != s[j]
  }

  /** `set.add(x)` on an insertion-ordered set: appends `x` unless it is already there. */
  function AddOnce<T(==, !new)>(s: seq<T>, x: T): (r: seq<T>)
    ensures forall y :: y in r <==> y in s || y == x
    ensures x in s ==> r == s
    ensures x !in s ==> r == s + [x]
    ensures Distinct(s) ==> Distinct(r)
  {
    if x in s then s else s + [x]
  }

  /** The elements of `s` that are not in `excluded`, in order (`s.filter(y => !excluded.has(y))`). */
  function Except<T(==)>(s: seq<T>, excluded: seq<T>): (r: seq<T>)
    ensures |r| <= |s|
  {
    if s == [] then []
    else if s[0] in excluded then Except(s[1..], excluded)
    else [s[0]] + Except(s[1..], excluded)
  }

  /**
   * The filter keeps exactly the elements that are not excluded, keeps a set a set, and changes
   * nothing when no element is excluded.
   */
  lemma {:induction false} ExceptKeepsOthers<T>(s: seq<T>, excluded: seq<T>)
    ensures forall y :: y in Except(s, excluded) <==> y in s && y !in excluded
    ensures Distinct(s) ==> Distinct(Except(s, excluded))
    ensures (forall y :: y in s ==> y !in excluded) ==> Except(s, excluded) == s
  {
    if s != [] {
      var tail := s[1..];
      ExceptKeepsOthers(tail, excluded);
      assert s == [s[0]] + tail;
      if Distinct(s) {
        assert Distinct(tail) by {
          forall i, j | 0 <= i < j < |tail| ensures tail[i] != tail[j] {
            assert s[i + 1] == tail[i] && s[j + 1] == tail[j];
          }
        }
        assert s[0] !in tail;
      }
    }
  }

  /** How many times `x` occurs in `s`. */
  function Occurrences<T(==)>(s: seq<T>, x: T): nat {
    if s == [] then 0 else (if s[0] == x then 1 else 0) + Occurrences(s[1..], x)
  }

  /** In a sequence without repetitions an element occurs exactly once if it is there at all. */
  lemma {:induction false} DistinctOccursOnce<T>(s: seq<T>, x: T)
    requires Distinct(s)
    ensures Occurrences(s, x) == if x in s then 1 else 0
  {
    if s != [] {
      assert Distinct(s[1..]);
      DistinctOccursOnce(s[1..], x);
      assert s[0] == x ==> x !in s[1..];
      assert x in s <==> s[0] == x || x in s[1..];
    }
  }

  /** `f` applied to each element in turn, the results concatenated. */
  function FlatMap<T, U>(xs: seq<T>, f: T -> seq<U>): seq<U> {
    if xs == [] then [] else f(xs[0]) + FlatMap(xs[1..], f)
  }

  /** Mapping over a concatenation concatenates the results. */
  lemma {:induction false} FlatMapAppend<T, U>(a: seq<T>, b: seq<T>, f: T -> seq<U>)
    ensures FlatMap(a + b, f) == FlatMap(a, f) + FlatMap(b, f)
  {
    if a == [] {
      assert a + b == b;
    } else {
      assert (a + b)[1..] == a[1..] + b;
      FlatMapAppend(a[1..], b, f);
    }
  }

  /** Mapping over one more element of a prefix appends that element's result. */
  lemma FlatMapPrefix<T, U>(xs: seq<T>, i: nat, f: T -> seq<U>)
    requires i < |xs|
    ensures FlatMap(xs[..i + 1], f) == FlatMap(xs[..i], f) + f(xs[i])
  {
    assert xs[..i + 1] == xs[..i] + [xs[i]];
    FlatMapAppend(xs[..i], [xs[i]], f);
    assert FlatMap([xs[i]], f) == f(xs[i]) + FlatMap([xs[i]][1..], f);
    assert [xs[i]][1..] == [];
  }
}
