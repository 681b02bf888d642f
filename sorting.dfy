/**
 * `Array.prototype.sort` with a comparator, which ECMAScript requires to be
 * stable, modelled as insertion sort on values.
 */
module Sorting {
  import opened Seqs

  /** Every two elements are ordered one way or the other. */
  ghost predicate Total<T(!new)>(cmp: (T, T) -> int) {
    forall a, b :: cmp(a, b) <= 0 || cmp(b, a) <= 0
  }

  ghost predicate Transitive<T(!new)>(cmp: (T, T) -> int) {
    forall a, b, c :: cmp(a, b) <= 0 && cmp(b, c) <= 0 ==> cmp(a, c) <= 0
  }

  ghost predicate AdjacentSorted<T>(s: seq<T>, cmp: (T, T) -> int) {
    forall i :: 0 <= i < |s| - 1 ==> cmp(s[i], s[i + 1]) <= 0
  }

  ghost predicate Sorted<T>(s: seq<T>, cmp: (T, T) -> int) {
    forall i, j :: 0 <= i < j < |s| ==> cmp(s[i], s[j]) <= 0
  }

  /** Insert `x` before the first element it does not sort after. */
  function Insert<T(!new)>(x: T, s: seq<T>, cmp: (T, T) -> int): (r: seq<T>)
    ensures |r| == |s| + 1
    ensures multiset(r) == multiset(s) + multiset{x}
    ensures r[0] == x || (s != [] && r[0] == s[0])
    ensures Total(cmp) && AdjacentSorted(s, cmp) ==> AdjacentSorted(r, cmp)
  {
    if s == [] || cmp(x, s[0]) <= 0 then [x] + s
    else
      assert s == [s[0]] + s[1..];
      [s[0]] + Insert(x, s[1..], cmp)
  }

  /** The elements of `s`, rearranged so that each sorts no later than the next. */
  function InsertionSort<T(!new)>(s: seq<T>, cmp: (T, T) -> int): (r: seq<T>)
    ensures multiset(r) == multiset(s)
    ensures |r| == |s|
    ensures Total(cmp) ==> AdjacentSorted(r, cmp)
  {
    if s == [] then []
    else
      assert s == [s[0]] + s[1..];
      Insert(s[0], InsertionSort(s[1..], cmp), cmp)
  }

  /** With a transitive comparator, neighbour order is order between every pair. */
  lemma {:induction false} AdjacentSortedIsSorted<T(!new)>(s: seq<T>, cmp: (T, T) -> int)
    requires Transitive(cmp) && AdjacentSorted(s, cmp)
    ensures Sorted(s, cmp)
  {
    if |s| > 1 {
      AdjacentSortedIsSorted(s[1..], cmp);
      forall j | 1 < j < |s|
        ensures cmp(s[0], s[j]) <= 0
      {
        assert cmp(s[1], s[j]) <= 0 by { assert s[1..][0] == s[1] && s[1..][j - 1] == s[j]; }
      }
    }
  }

  /** Sorting with a total preorder gives a sorted permutation. */
  lemma SortIsSorted<T(!new)>(s: seq<T>, cmp: (T, T) -> int)
    requires Total(cmp) && Transitive(cmp)
    ensures Sorted(InsertionSort(s, cmp), cmp)
    ensures multiset(InsertionSort(s, cmp)) == multiset(s)
  {
    AdjacentSortedIsSorted(InsertionSort(s, cmp), cmp);
  }

  /** The elements that sort level with `y`: neither before nor after it. */
  function TiedWith<T>(cmp: (T, T) -> int, y: T): T -> bool {
    x => cmp(x, y) == 0 && cmp(y, x) == 0
  }

  /** Inserting `x` puts it before every element level with it, so among those it comes first. */
  lemma {:induction false} InsertTied<T(!new)>(x: T, s: seq<T>, cmp: (T, T) -> int, y: T)
    requires Transitive(cmp)
    ensures Filter(Insert(x, s, cmp), TiedWith(cmp, y))
         == (if TiedWith(cmp, y)(x) then [x] else []) + Filter(s, TiedWith(cmp, y))
  {
    var p := TiedWith(cmp, y);
    if s == [] || cmp(x, s[0]) <= 0 {
      assert ([x] + s)[1..] == s;
    } else {
      InsertTied(x, s[1..], cmp, y);
      var r := [s[0]] + Insert(x, s[1..], cmp);
      assert r[1..] == Insert(x, s[1..], cmp);
      assert p(x) ==> !p(s[0]);
    }
  }

  /**
   * The sort is stable: the elements level with any `y` keep their input order.
   */
  lemma {:induction false} SortIsStable<T(!new)>(s: seq<T>, cmp: (T, T) -> int, y: T)
    requires Transitive(cmp)
    ensures Filter(InsertionSort(s, cmp), TiedWith(cmp, y)) == Filter(s, TiedWith(cmp, y))
  {
    if s != [] {
      SortIsStable(s[1..], cmp, y);
      InsertTied(s[0], InsertionSort(s[1..], cmp), cmp, y);
    }
  }

  /** A comparator that finds every pair equal leaves the order as it was (stability). */
  lemma {:induction false} SortAllTiesIsIdentity<T(!new)>(s: seq<T>, cmp: (T, T) -> int)
    requires forall a, b :: cmp(a, b) == 0
    ensures InsertionSort(s, cmp) == s
  {
    if s != [] {
      SortAllTiesIsIdentity(s[1..], cmp);
    }
  }
}
