/** Singly linked lists whose cells are spliced in place: the queue of timed messages and the list of
    methods are both kept this way. */
module Chains {

  class Cell<T> {
    const item: T
    var next: Cell?<T>

    constructor (item: T)
      ensures this.item == item && next == null
    {
      this.item := item;
      next := null;
    }
  }

  function At<T>(spine: seq<Cell<T>>, i: nat): Cell?<T> {
    if i < |spine| then spine[i] else null
  }

  /** Following `next` from `first` visits the cells of the spine and ends. */
  ghost predicate Chain<T>(first: Cell?<T>, spine: seq<Cell<T>>)
    reads spine
  {
    first == At(spine, 0) && Linked(spine) && Distinct(spine)
  }

  ghost predicate Linked<T>(spine: seq<Cell<T>>)
    reads spine
  {
    forall i :: 0 <= i < |spine| ==> spine[i].next == At(spine, i + 1)
  }

  ghost predicate Distinct<T>(spine: seq<Cell<T>>) {
    forall i, j :: 0 <= i < j < |spine| ==> spine[i] != spine[j]
  }

  ghost function Items<T>(spine: seq<Cell<T>>): (r: seq<T>)
    ensures |r| == |spine| && forall i :: 0 <= i < |spine| ==> r[i] == spine[i].item
  {
    seq(|spine|, i requires 0 <= i < |spine| => spine[i].item)
  }

  /** The spine with a cell put in at i, and with the cell at i taken out. */
  ghost function With<T>(spine: seq<Cell<T>>, i: nat, c: Cell<T>): seq<Cell<T>>
    requires i <= |spine|
  {
    spine[..i] + [c] + spine[i..]
  }

  ghost function Without<T>(spine: seq<Cell<T>>, i: nat): seq<Cell<T>>
    requires i < |spine|
  {
    spine[..i] + spine[i + 1..]
  }

  lemma ItemsWith<T>(spine: seq<Cell<T>>, i: nat, c: Cell<T>)
    requires i <= |spine|
    ensures Items(With(spine, i, c)) == Items(spine)[..i] + [c.item] + Items(spine)[i..]
  {}

  ghost predicate Owned<T>(spine: seq<Cell<T>>, cells: set<Cell<T>>) {
    forall i :: 0 <= i < |spine| ==> spine[i] in cells
  }

  lemma OwnedWith<T>(spine: seq<Cell<T>>, cells: set<Cell<T>>, i: nat, c: Cell<T>)
    requires i <= |spine| && Owned(spine, cells)
    ensures Owned(With(spine, i, c), cells + {c})
  {
    var s := With(spine, i, c);
    forall j | 0 <= j < |s| ensures s[j] in cells + {c} {
      assert j != i ==> s[j] == spine[if j < i then j else j - 1];
    }
  }

  lemma ItemsAppend<T>(spine: seq<Cell<T>>, c: Cell<T>)
    ensures Items(With(spine, |spine|, c)) == Items(spine) + [c.item]
  {}

  lemma ItemsWithout<T>(spine: seq<Cell<T>>, i: nat)
    requires i < |spine|
    ensures Items(Without(spine, i)) == Items(spine)[..i] + Items(spine)[i + 1..]
    ensures Within(Without(spine, i), spine)
  {}

  /** Taking a cell out moves a walk on to the next. */
  lemma ReachedNext<T>(spine: seq<Cell<T>>, prev: Cell<T>, it: Cell<T>, i: nat)
    requires Reached(spine, prev, it, i) && i < |spine|
    ensures Reached(Without(spine, i), prev, At(spine, i + 1), i)
  {}

  ghost predicate Within<T>(a: seq<Cell<T>>, b: seq<Cell<T>>) {
    forall i :: 0 <= i < |a| ==> a[i] in b
  }

  /** A walk along the list has come to cell i, or to the end. */
  ghost predicate Reached<T>(spine: seq<Cell<T>>, prev: Cell?<T>, it: Cell?<T>, i: nat) {
    i <= |spine| && it == At(spine, i) && (i > 0 ==> prev == spine[i - 1])
  }

  lemma ItemsFrom<T>(spine: seq<Cell<T>>, i: nat)
    requires i <= |spine|
    ensures i < |spine| ==> Items(spine)[i..] == [spine[i].item] + Items(spine)[i + 1..]
    ensures Items(spine)[0..] == Items(spine) && Items(spine)[|spine|..] == []
  {}

  lemma WithDistinct<T>(spine: seq<Cell<T>>, i: nat, c: Cell<T>)
    requires i <= |spine| && c !in spine && Distinct(spine)
    ensures Distinct(With(spine, i, c))
  {
    var s := With(spine, i, c);
    forall j, k | 0 <= j < k < |s| ensures s[j] != s[k] {
      assert j != i ==> s[j] == spine[if j < i then j else j - 1];
      assert k != i ==> s[k] == spine[if k < i then k else k - 1];
    }
  }

  lemma WithoutDistinct<T>(spine: seq<Cell<T>>, i: nat)
    requires i < |spine| && Distinct(spine)
    ensures Distinct(Without(spine, i))
  {
    var s := Without(spine, i);
    forall j, k | 0 <= j < k < |s| ensures s[j] != s[k] {
      assert s[j] == spine[if j < i then j else j + 1] && s[k] == spine[if k < i then k else k + 1];
    }
  }

  /** Links `ins` in front of cell i, behind `prev` if there is one. */
  method LinkIn<T>(first: Cell?<T>, prev: Cell?<T>, ins: Cell<T>, it: Cell?<T>, ghost spine: seq<Cell<T>>, ghost i: nat)
    returns (head: Cell?<T>)
    requires Chain(first, spine) && ins !in spine && Reached(spine, prev, it, i) && (i == 0 ==> prev == null)
    modifies ins, spine
    ensures Chain(head, With(spine, i, ins))
  {
    head := first;
    if prev != null {
      prev.next := ins;
    } else {
      head := ins;
    }
    ins.next := it;
    ghost var s := With(spine, i, ins);
    WithDistinct(spine, i, ins);
    forall j | 0 <= j < |s| ensures s[j].next == At(s, j + 1) {
      if j < i {
        assert s[j] == spine[j];
      } else if j > i {
        assert s[j] == spine[j - 1];
      }
    }
  }

  /** Takes cell i out.  For the first cell `prev` is not looked at: it may have been freed. */
  method LinkOut<T>(first: Cell<T>, prev: Cell<T>, it: Cell<T>, ghost spine: seq<Cell<T>>, ghost i: nat)
    returns (head: Cell?<T>)
    requires Chain(first, spine) && i < |spine| && Reached(spine, prev, it, i)
    modifies spine
    ensures Chain(head, Without(spine, i))
  {
    head := first;
    if it == first {
      head := it.next;
    } else {
      prev.next := it.next;
    }
    ghost var s := Without(spine, i);
    WithoutDistinct(spine, i);
    forall j | 0 <= j < |s| ensures s[j].next == At(s, j + 1) {
      assert s[j] == spine[if j < i then j else j + 1];
    }
  }
}
