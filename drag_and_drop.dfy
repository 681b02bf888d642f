/**
 * The drop handler of src/hooks/useDragAndDrop.ts: the list held in the hook's
 * `items` state is copied, the dragged entry is spliced out and spliced back
 * in at the drop position.
 */
module DragAndDrop {
  import opened Wrappers

  /** `s` without its entry at `i` (`splice(i, 1)`). */
  function Remove<T>(s: seq<T>, i: nat): (r: seq<T>)
    requires i < |s|
    ensures |r| == |s| - 1
    ensures forall k :: 0 <= k < |r| ==> r[k] == if k < i then s[k] else s[k + 1]
  {
    s[..i] + s[i + 1..]
  }

  /** `s` with `x` placed at index `i` (`splice(i, 0, x)`). */
  function InsertAt<T>(s: seq<T>, i: nat, x: T): (r: seq<T>)
    requires i <= |s|
    ensures |r| == |s| + 1
    ensures r[i] == x
    ensures forall k :: 0 <= k < |r| && k != i ==> r[k] == if k < i then s[k] else s[k - 1]
  {
    s[..i] + [x] + s[i..]
  }

  /** The entry at `from` moved to `to`, the position counted after its removal. */
  function Move<T>(s: seq<T>, from: nat, to: nat): seq<T>
    requires from < |s| && to < |s|
  {
    InsertAt(Remove(s, from), to, s[from])
  }

  /** A move keeps the length and the entries: it is a permutation. */
  lemma MoveIsPermutation<T>(s: seq<T>, from: nat, to: nat)
    requires from < |s| && to < |s|
    ensures |Move(s, from, to)| == |s|
    ensures multiset(Move(s, from, to)) == multiset(s)
  {
    var rest := Remove(s, from);
    assert s == s[..from] + [s[from]] + s[from + 1..];
    assert multiset(s) == multiset(rest) + multiset{s[from]};
    assert rest == rest[..to] + rest[to..];
    assert multiset(Move(s, from, to)) == multiset(rest[..to]) + multiset{s[from]} + multiset(rest[to..]);
  }

  /** The dragged entry lands at the drop position. */
  lemma MovePlacesDragged<T>(s: seq<T>, from: nat, to: nat)
    requires from < |s| && to < |s|
    ensures Move(s, from, to)[to] == s[from]
  {
  }

  /** Taking the dragged entry out again leaves the others in their original order. */
  lemma MoveKeepsOthersInOrder<T>(s: seq<T>, from: nat, to: nat)
    requires from < |s| && to < |s|
    ensures Remove(Move(s, from, to), to) == Remove(s, from)
  {
    var rest := Remove(s, from);
    var m := Move(s, from, to);
    assert m[..to] == rest[..to];
    assert m[to + 1..] == rest[to..];
  }

  /** Dragging the entry back to where it came from restores the list. */
  lemma MoveBack<T>(s: seq<T>, from: nat, to: nat)
    requires from < |s| && to < |s|
    ensures Move(Move(s, from, to), to, from) == s
  {
    MoveKeepsOthersInOrder(s, from, to);
    MovePlacesDragged(s, from, to);
    assert s == s[..from] + [s[from]] + s[from + 1..];
  }

  /**
   * The two splices of `handleDrop` done in place on the copied array: shift the
   * tail left over the dragged entry, then shift right from the drop position
   * and write the dragged entry there.
   */
  method MoveInPlace<T>(a: array<T>, from: nat, to: nat)
    requires from < a.Length && to < a.Length
    modifies a
    ensures a[..] == Move(old(a[..]), from, to)
  {
    ghost var original := a[..];
    ghost var rest := Remove(original, from);
    var dragged := a[from];
    ShiftLeft(a, from);
    assert a[..a.Length - 1] == rest;
    ShiftRight(a, to);
    a[to] := dragged;
    assert a[..] == a[..to] + [dragged] + a[to + 1..];
  }

  /** Every entry after `from` moves one place left; the last place keeps its entry. */
  method ShiftLeft<T>(a: array<T>, from: nat)
    requires from < a.Length
    modifies a
    ensures a[..a.Length - 1] == Remove(old(a[..]), from)
    ensures a[a.Length - 1] == old(a[a.Length - 1])
  {
    ghost var original := a[..];
    var i := from;
    while i < a.Length - 1
      invariant from <= i <= a.Length - 1
      invariant a[..from] == original[..from]
      invariant a[from..i] == original[from + 1..i + 1]
      invariant a[i..] == original[i..]
    {
      a[i] := a[i + 1];
      i := i + 1;
    }
    assert a[..a.Length - 1] == a[..from] + a[from..a.Length - 1];
  }

  /** Every entry from `to` up to the next-to-last moves one place right. */
  method ShiftRight<T>(a: array<T>, to: nat)
    requires to < a.Length
    modifies a
    ensures a[..to] == old(a[..to])
    ensures a[to + 1..] == old(a[to..a.Length - 1])
  {
    ghost var original := a[..];
    var j := a.Length - 1;
    while j > to
      invariant to <= j <= a.Length - 1
      invariant a[..j] == original[..j]
      invariant a[j + 1..] == original[j..a.Length - 1]
    {
      a[j] := a[j - 1];
      j := j - 1;
    }
  }

  /** The hook's state: the list currently shown, in display order. */
  class DragList<T> {
    var items: seq<T>

    constructor (initialItems: seq<T>)
      ensures items == initialItems
    {
      items := initialItems;
    }

    /**
     * `handleDrop`: with equal positions nothing happens and nothing is
     * returned; otherwise the moved list becomes `items` and is returned.
     */
    method HandleDrop(dragPosition: nat, dropPosition: nat) returns (moved: Option<seq<T>>)
      requires dragPosition < |items| && dropPosition < |items|
      modifies this
      ensures dragPosition == dropPosition ==> moved == None && items == old(items)
      ensures dragPosition != dropPosition ==>
        items == Move(old(items), dragPosition, dropPosition) && moved == Some(items)
    {
      if dragPosition == dropPosition {
        return None;
      }
      var current := items;
      var newItems := new T[|current|](k requires 0 <= k < |current| => current[k]);
      assert newItems[..] == current;
      MoveInPlace(newItems, dragPosition, dropPosition);
      items := newItems[..];
      moved := Some(items);
    }
  }
}
