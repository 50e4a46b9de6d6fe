/**
 * `Sorting`: the stable sort `Array.prototype.sort` performs with a comparator, as an
 * insertion sort by a "may come first" relation. `le(a, b)` holds when the comparator
 * puts `a` before `b` or calls them equal; equal elements keep their input order.
 */
module Sorting {
  /** Every two elements are ordered one way or the other. */
  ghost predicate Total<T(!new)>(le: (T, T) -> bool) {
    forall a, b :: le(a, b) || le(b, a)
  }

  ghost predicate Transitive<T(!new)>(le: (T, T) -> bool) {
    forall a, b, c :: le(a, b) && le(b, c) ==> le(a, c)
  }

  /** Each element may come before every later one. */
  predicate SortedBy<T>(s: seq<T>, le: (T, T) -> bool) {
    forall i, j :: 0 <= i < j < |s| ==> le(s[i], s[j])
  }

  /** Put `x` before the first element it may precede. */
  function InsertBy<T>(x: T, s: seq<T>, le: (T, T) -> bool): (r: seq<T>)
    ensures multiset(r) == multiset(s) + multiset{x} && |r| == |s| + 1
  {
    if s == [] then [x]
    else if le(x, s[0]) then [x] + s
    else
      assert s == [s[0]] + s[1..];
      [s[0]] + InsertBy(x, s[1..], le)
  }

  /** Sort by inserting each element, from the last to the first, into the sorted rest. */
  function SortBy<T>(xs: seq<T>, le: (T, T) -> bool): (r: seq<T>)
    ensures multiset(r) == multiset(xs) && |r| == |xs|
  {
    if xs == [] then []
    else
      assert xs == [xs[0]] + xs[1..];
      InsertBy(xs[0], SortBy(xs[1..], le), le)
  }

  lemma {:induction false} InsertBySorted<T(!new)>(x: T, s: seq<T>, le: (T, T) -> bool)
    requires Total(le) && Transitive(le) && SortedBy(s, le)
    ensures SortedBy(InsertBy(x, s, le), le)
  {
    if s != [] && !le(x, s[0]) {
      var rest := InsertBy(x, s[1..], le);
      InsertBySorted(x, s[1..], le);
      assert le(s[0], x);
      forall k | 0 <= k < |rest|
        ensures le(s[0], rest[k])
      {
        assert rest[k] in multiset(rest);
        assert rest[k] == x || rest[k] in s[1..];
      }
    }
  }

  /** The result is sorted (and, by its contract, a permutation of the input). */
  lemma {:induction false} SortBySorted<T(!new)>(xs: seq<T>, le: (T, T) -> bool)
    requires Total(le) && Transitive(le)
    ensures SortedBy(SortBy(xs, le), le)
  {
    if xs != [] {
      SortBySorted(xs[1..], le);
      InsertBySorted(xs[0], SortBy(xs[1..], le), le);
    }
  }

  /** An input that is already in order is left as it is: equal elements are not swapped. */
  lemma {:induction false} SortByOfSorted<T>(xs: seq<T>, le: (T, T) -> bool)
    requires SortedBy(xs, le)
    ensures SortBy(xs, le) == xs
  {
    if xs != [] {
      SortByOfSorted(xs[1..], le);
      if |xs| > 1 {
        assert le(xs[0], xs[1..][0]);
      }
    }
  }

  /** The elements the relation puts level with `e`, in order. */
  function Equivalents<T>(s: seq<T>, e: T, le: (T, T) -> bool): (r: seq<T>)
    ensures |r| <= |s|
  {
    if s == [] then []
    else (if le(s[0], e) && le(e, s[0]) then [s[0]] else []) + Equivalents(s[1..], e, le)
  }

  lemma EquivalentsCons<T>(x: T, s: seq<T>, e: T, le: (T, T) -> bool)
    ensures Equivalents([x] + s, e, le) == Equivalents([x], e, le) + Equivalents(s, e, le)
  {
    assert ([x] + s)[1..] == s;
  }

  /** Inserting into a sorted list places `x` before everything level with it, and the level elements keep their order. */
  lemma {:induction false} InsertByStable<T(!new)>(x: T, s: seq<T>, e: T, le: (T, T) -> bool)
    requires Total(le) && Transitive(le) && SortedBy(s, le)
    ensures Equivalents(InsertBy(x, s, le), e, le) == Equivalents([x], e, le) + Equivalents(s, e, le)
  {
    if s == [] {
    } else if le(x, s[0]) {
      EquivalentsCons(x, s, e, le);
    } else {
      var rest := s[1..];
      assert s == [s[0]] + rest;
      InsertByStable(x, rest, e, le);
      EquivalentsCons(s[0], InsertBy(x, rest, le), e, le);
      EquivalentsCons(s[0], rest, e, le);
      // `s[0]` and `x` are not both level with `e`, or `x` could precede `s[0]`
      assert Equivalents([s[0]], e, le) == [] || Equivalents([x], e, le) == [];
    }
  }

  /**
   * The sort is stable: for every `e`, the elements level with `e` come out in the order
   * they went in.
   */
  lemma {:induction false} SortByStable<T(!new)>(xs: seq<T>, e: T, le: (T, T) -> bool)
    requires Total(le) && Transitive(le)
    ensures Equivalents(SortBy(xs, le), e, le) == Equivalents(xs, e, le)
  {
    if xs != [] {
      var rest := xs[1..];
      assert xs == [xs[0]] + rest;
      SortByStable(rest, e, le);
      SortBySorted(rest, le);
      InsertByStable(xs[0], SortBy(rest, le), e, le);
      EquivalentsCons(xs[0], rest, e, le);
    }
  }
}
