/**
 * `Array.prototype.filter`, the order-preserving subsequence relation it
 * establishes, and the membership toggle the views apply to lists of ids.
 */
module Seqs {

  /** `r` is `s` with some elements left out, the rest in their original order. */
  predicate IsSubsequence<T(==)>(r: seq<T>, s: seq<T>)
    decreases |s|
  {
    if r == [] then true
    else if s == [] then false
    else if r[0] == s[0] then IsSubsequence(r[1..], s[1..])
    else IsSubsequence(r, s[1..])
  }

  /** `s.filter(p)`. */
  function Filter<T(!new)>(s: seq<T>, p: T -> bool): (r: seq<T>)
    ensures |r| <= |s|
    ensures forall x :: x in r <==> x in s && p(x)
  {
    if s == [] then []
    else if p(s[0]) then [s[0]] + Filter(s[1..], p)
    else Filter(s[1..], p)
  }

  /** Filtering keeps the kept elements in their original order. */
  lemma {:induction false} FilterIsSubsequence<T(!new)>(s: seq<T>, p: T -> bool)
    ensures IsSubsequence(Filter(s, p), s)
  {
    if s != [] {
      FilterIsSubsequence(s[1..], p);
      var r := Filter(s, p);
      if !p(s[0]) && r != [] {
        SubsequenceOfTail(r, s);
      }
    }
  }

  lemma {:induction false} SubsequenceOfTail<T>(r: seq<T>, s: seq<T>)
    requires s != [] && IsSubsequence(r, s[1..])
    ensures IsSubsequence(r, s)
    decreases |s|, 0
  {
    if r != [] && r[0] == s[0] {
      SubsequenceDropHead(r, s[1..]);
    }
  }

  lemma {:induction false} SubsequenceDropHead<T>(r: seq<T>, t: seq<T>)
    requires r != [] && IsSubsequence(r, t)
    ensures IsSubsequence(r[1..], t)
    decreases |t|, 1
  {
    if r[0] == t[0] {
      if r[1..] != [] {
        SubsequenceOfTail(r[1..], t);
      }
    } else {
      SubsequenceDropHead(r, t[1..]);
      SubsequenceOfTail(r[1..], t);
    }
  }

  /** Filtering by `p` and by its negation splits the input between the two results. */
  lemma {:induction false} FilterPartition<T(!new)>(s: seq<T>, p: T -> bool, q: T -> bool)
    requires forall x :: q(x) == !p(x)
    ensures multiset(Filter(s, p)) + multiset(Filter(s, q)) == multiset(s)
  {
    if s != [] {
      var x, rest := s[0], s[1..];
      FilterPartition(rest, p, q);
      assert s == [x] + rest;
      if p(x) {
        assert Filter(s, p) == [x] + Filter(rest, p);
        assert Filter(s, q) == Filter(rest, q);
      } else {
        assert Filter(s, p) == Filter(rest, p);
        assert Filter(s, q) == [x] + Filter(rest, q);
      }
    }
  }

  /** Filtering keeps every copy of an element the predicate accepts and no copy of any other. */
  lemma {:induction false} FilterCount<T(!new)>(s: seq<T>, p: T -> bool, x: T)
    ensures multiset(Filter(s, p))[x] == if p(x) then multiset(s)[x] else 0
  {
    if s != [] {
      var rest := s[1..];
      FilterCount(rest, p, x);
      assert s == [s[0]] + rest;
      assert multiset(s) == multiset{s[0]} + multiset(rest);
      if p(s[0]) {
        assert Filter(s, p) == [s[0]] + Filter(rest, p);
      } else {
        assert Filter(s, p) == Filter(rest, p);
      }
    }
  }

  /** A predicate that holds of no element keeps nothing. */
  lemma {:induction false} FilterNone<T(!new)>(s: seq<T>, p: T -> bool)
    requires forall x :: x in s ==> !p(x)
    ensures Filter(s, p) == []
  {
    if s != [] {
      assert s[0] in s;
      assert forall x :: x in s[1..] ==> x in s;
      FilterNone(s[1..], p);
    }
  }

  /** Filtering a sequence with one more element at its end. */
  lemma {:induction false} FilterAppend<T(!new)>(s: seq<T>, x: T, p: T -> bool)
    ensures Filter(s + [x], p) == Filter(s, p) + (if p(x) then [x] else [])
  {
    if s == [] {
      assert [x][1..] == [];
    } else {
      assert (s + [x])[1..] == s[1..] + [x];
      FilterAppend(s[1..], x, p);
    }
  }

  /** A predicate that holds of every element keeps the whole sequence. */
  lemma {:induction false} FilterAll<T(!new)>(s: seq<T>, p: T -> bool)
    requires forall i :: 0 <= i < |s| ==> p(s[i])
    ensures Filter(s, p) == s
  {
    if s != [] {
      FilterAll(s[1..], p);
    }
  }

  predicate Distinct<T(==)>(s: seq<T>) {
    forall i, j :: 0 <= i < j < |s| ==> s[i] != s[j]
  }

  /**
   * Toggle the membership of `x`: remove every occurrence when present
   * (`s.filter(y => y !== x)`), append it at the end when absent (`[...s, x]`).
   */
  function Toggle<T(==,!new)>(s: seq<T>, x: T): (r: seq<T>)
    ensures x in r <==> x !in s
    ensures forall y :: y != x ==> (y in r <==> y in s)
    ensures x !in s ==> r == s + [x]
  {
    if x in s then Filter(s, y => y != x) else s + [x]
  }

  /**
   * Removing keeps the other entries, with their repeats, in their order;
   * toggling keeps a list free of repeats.
   */
  lemma ToggleKeepsOrder<T(!new)>(s: seq<T>, x: T)
    ensures x in s ==> IsSubsequence(Toggle(s, x), s)
    ensures x in s ==> multiset(Toggle(s, x)) == multiset(s)[x := 0]
    ensures Distinct(s) ==> Distinct(Toggle(s, x))
  {
    if x in s {
      FilterIsSubsequence(s, y => y != x);
      FilterOutCount(s, x);
      if Distinct(s) {
        FilterKeepsDistinct(s, y => y != x);
      }
    }
  }

  /** Filtering out `x` drops exactly its occurrences and keeps every other element's count. */
  lemma {:induction false} FilterOutCount<T(!new)>(s: seq<T>, x: T)
    ensures multiset(Filter(s, y => y != x)) == multiset(s)[x := 0]
  {
    if s != [] {
      var p := y => y != x;
      var rest := s[1..];
      FilterOutCount(rest, x);
      assert s == [s[0]] + rest;
      assert multiset(s) == multiset{s[0]} + multiset(rest);
      if s[0] == x {
        assert Filter(s, p) == Filter(rest, p);
      } else {
        assert Filter(s, p) == [s[0]] + Filter(rest, p);
      }
    }
  }

  lemma {:induction false} FilterKeepsDistinct<T(!new)>(s: seq<T>, p: T -> bool)
    requires Distinct(s)
    ensures Distinct(Filter(s, p))
  {
    if s != [] {
      FilterKeepsDistinct(s[1..], p);
      var r := Filter(s, p);
      if p(s[0]) {
        assert s[0] !in s[1..];
        assert s[0] !in Filter(s[1..], p);
        assert r == [s[0]] + Filter(s[1..], p);
      }
    }
  }

  /** Toggling an absent entry twice restores the list. */
  lemma {:induction false} ToggleTwice<T(!new)>(s: seq<T>, x: T)
    requires x !in s
    ensures Toggle(Toggle(s, x), x) == s
  {
    var t := s + [x];
    assert x in t;
    FilterAppendDropped(s, x);
  }

  lemma {:induction false} FilterAppendDropped<T(!new)>(s: seq<T>, x: T)
    requires x !in s
    ensures Filter(s + [x], y => y != x) == s
  {
    if s == [] {
      assert [x][1..] == [];
    } else {
      assert (s + [x])[1..] == s[1..] + [x];
      FilterAppendDropped(s[1..], x);
    }
  }

  /** The index of the first occurrence of `x` in `s`. */
  function FirstIndex<T(==)>(s: seq<T>, x: T): (k: nat)
    requires x in s
    ensures k < |s| && s[k] == x && x !in s[..k]
  {
    if s[0] == x then 0
    else
      assert s == [s[0]] + s[1..];
      FirstIndex(s[1..], x) + 1
  }

  /** A position that holds `x` with no `x` before it is the first occurrence. */
  lemma FirstIndexUnique<T>(s: seq<T>, x: T, k: nat)
    requires k < |s| && s[k] == x && x !in s[..k]
    ensures FirstIndex(s, x) == k
  {
  }

  /** Dropping the last element leaves the first occurrences of the others where they were. */
  lemma FirstIndexOfPrefix<T>(s: seq<T>)
    requires s != []
    ensures forall x :: x in s[..|s| - 1] ==> FirstIndex(s, x) == FirstIndex(s[..|s| - 1], x)
  {
    var p := s[..|s| - 1];
    forall x | x in p
      ensures FirstIndex(s, x) == FirstIndex(p, x)
    {
      var k := FirstIndex(p, x);
      assert s[..k] == p[..k];
      FirstIndexUnique(s, x, k);
    }
  }

  /**
   * `[...new Set(s)]`: the first occurrences only, in the order they first
   * occur; a list without repeats is kept as it is.
   */
  function Dedup<T(==,!new)>(s: seq<T>): (r: seq<T>)
    ensures Distinct(r)
    ensures forall x :: x in r <==> x in s
    ensures forall i, j :: 0 <= i < j < |r| ==> FirstIndex(s, r[i]) < FirstIndex(s, r[j])
    ensures Distinct(s) ==> r == s
  {
    if s == [] then []
    else
      var prefix, last := s[..|s| - 1], s[|s| - 1];
      var rest := Dedup(prefix);
      FirstIndexOfPrefix(s);
      assert s == prefix + [last];
      if last in rest then rest
      else
        FirstIndexUnique(s, last, |s| - 1);
        rest + [last]
  }
}
