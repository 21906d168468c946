/** A binary heap of key/data pairs in a growing array.  The comparator is given to each
    operation as it behaves at that moment, since what it looks at may change between
    operations. */
module Heap {

  /** A `void *`. */
  type Ptr = int

  datatype Item = Item(key: Ptr, data: Ptr)

  type Comparator = (Ptr, Ptr) -> int

  ghost predicate TotalPreorder(cmp: Comparator) {
    && (forall a: Ptr, b: Ptr :: cmp(a, b) <= 0 || cmp(b, a) < 0)
    && (forall a: Ptr, b: Ptr :: cmp(a, b) < 0 ==> cmp(b, a) > 0)
    && (forall a: Ptr, b: Ptr :: cmp(a, b) > 0 ==> cmp(b, a) < 0)
    && (forall a: Ptr, b: Ptr, c: Ptr :: cmp(a, b) <= 0 && cmp(b, c) <= 0 ==> cmp(a, c) <= 0)
  }

  function Parent(i: nat): nat
    requires i > 0
  {
    (i - 1) / 2
  }

  predicate Le(cmp: Comparator, a: Item, b: Item) {
    cmp(a.key, b.key) <= 0
  }

  /** The item at `i` is not before its parent. */
  predicate Below(cmp: Comparator, s: seq<Item>, i: nat)
    requires 0 < i < |s|
  {
    Le(cmp, s[Parent(i)], s[i])
  }

  ghost predicate Ordered(cmp: Comparator, s: seq<Item>) {
    forall i :: 0 < i < |s| ==> Below(cmp, s, i)
  }

  /** The children of `i` are not before the parent of `i`. */
  ghost predicate Bridged(cmp: Comparator, s: seq<Item>, i: nat) {
    forall k :: 0 < i < k < |s| && Parent(k) == i ==> Le(cmp, s[Parent(i)], s[k])
  }

  /** In order but for the item at `i`, which may be before its parent. */
  ghost predicate UpAt(cmp: Comparator, s: seq<Item>, i: nat) {
    (forall k :: 0 < k < |s| && k != i ==> Below(cmp, s, k)) && Bridged(cmp, s, i)
  }

  /** In order but for the item at `i`, which may also be after its children; `top` is
      where the item started. */
  ghost predicate DownAt(cmp: Comparator, s: seq<Item>, i: nat, top: nat) {
    && (forall k :: 0 < k < |s| && Parent(k) != i && (k == top ==> i != top) ==> Below(cmp, s, k))
    && Bridged(cmp, s, i)
  }

  ghost predicate BeforeChildren(cmp: Comparator, s: seq<Item>, i: nat, x: Item) {
    forall k :: 0 < k < |s| && Parent(k) == i ==> Le(cmp, x, s[k])
  }

  function Swap(s: seq<Item>, i: nat, j: nat): (s': seq<Item>)
    requires i < |s| && j < |s|
    ensures |s'| == |s| && multiset(s') == multiset(s)
  {
    SwapMultiset(s, i, j);
    s[i := s[j]][j := s[i]]
  }

  lemma SwapMultiset(s: seq<Item>, i: nat, j: nat)
    requires i < |s| && j < |s|
    ensures multiset(s[i := s[j]][j := s[i]]) == multiset(s)
  {
  }

  lemma UpStep(cmp: Comparator, s: seq<Item>, i: nat)
    requires TotalPreorder(cmp) && 0 < i < |s| && UpAt(cmp, s, i) && cmp(s[i].key, s[Parent(i)].key) <= 0
    ensures UpAt(cmp, Swap(s, i, Parent(i)), Parent(i))
  {
    var s', p := Swap(s, i, Parent(i)), Parent(i);
    forall k | 0 < k < |s'| && k != p ensures Below(cmp, s', k) {
      if k != i { assert Below(cmp, s, k); }
    }
    forall k | 0 < p < k < |s'| && Parent(k) == p ensures Le(cmp, s'[Parent(p)], s'[k]) {
      assert Below(cmp, s, p);
      if k != i { assert Below(cmp, s, k); }
    }
  }

  lemma UpDone(cmp: Comparator, s: seq<Item>, i: nat)
    requires TotalPreorder(cmp) && i < |s| && UpAt(cmp, s, i) && (i > 0 ==> cmp(s[i].key, s[Parent(i)].key) > 0)
    ensures Ordered(cmp, s)
  {
  }

  lemma DownStep(cmp: Comparator, s: seq<Item>, i: nat, top: nat, child: nat)
    requires TotalPreorder(cmp) && i < child < |s| && Parent(child) == i && DownAt(cmp, s, i, top)
    requires cmp(s[i].key, s[child].key) > 0
    requires BeforeChildren(cmp, s, i, s[child])
    ensures DownAt(cmp, Swap(s, i, child), child, top)
  {
    var s' := Swap(s, i, child);
    forall k | 0 < k < |s'| && Parent(k) != child && (k == top ==> child != top) ensures Below(cmp, s', k) {
      if Parent(k) != i && k != i { assert Below(cmp, s, k); }
    }
    forall k | child < k < |s'| && Parent(k) == child ensures Le(cmp, s'[Parent(child)], s'[k]) {
      assert Below(cmp, s, k);
    }
  }

  lemma DownDone(cmp: Comparator, s: seq<Item>, i: nat, top: nat)
    requires TotalPreorder(cmp) && i < |s| && top < |s| && DownAt(cmp, s, i, top)
    requires BeforeChildren(cmp, s, i, s[i])
    ensures UpAt(cmp, s, top)
  {
    forall k | 0 < k < |s| && k != top ensures Below(cmp, s, k) {}
    if i != top {
      forall k | 0 < top < k < |s| && Parent(k) == top ensures Le(cmp, s[Parent(top)], s[k]) {
        assert Below(cmp, s, top) && Below(cmp, s, k);
      }
    }
  }

  // ------------------------------------------------------------- growing and shrinking

  lemma Appended(cmp: Comparator, s: seq<Item>, x: Item)
    requires Ordered(cmp, s)
    ensures UpAt(cmp, s + [x], |s|)
  {
    forall k | 0 < k < |s + [x]| && k != |s| ensures Below(cmp, s + [x], k) { assert Below(cmp, s, k); }
  }

  /** The last item in the place of the one at `i`. */
  function WithoutAt(s: seq<Item>, i: nat): (s': seq<Item>)
    requires i < |s|
    ensures |s'| == |s| - 1
  {
    s[i := s[|s| - 1]][..|s| - 1]
  }

  lemma WithoutMultiset(s: seq<Item>, i: nat)
    requires i < |s|
    ensures multiset(WithoutAt(s, i)) == multiset(s) - multiset{s[i]}
  {
    var n := |s| - 1;
    var u, w := s[i := s[n]], WithoutAt(s, i);
    assert u == w + [s[n]];
    assert multiset(u) == multiset(w) + multiset{s[n]};
    assert multiset(u) == multiset(s) - multiset{s[i]} + multiset{s[n]};
    forall x ensures multiset(w)[x] == (multiset(s) - multiset{s[i]})[x] {
      assert multiset(u)[x] == multiset(w)[x] + multiset{s[n]}[x];
    }
  }

  lemma WithoutDown(cmp: Comparator, s: seq<Item>, i: nat)
    requires TotalPreorder(cmp) && Ordered(cmp, s) && i < |s|
    ensures DownAt(cmp, WithoutAt(s, i), i, i)
    ensures i == |s| - 1 ==> Ordered(cmp, WithoutAt(s, i))
  {
    var s' := WithoutAt(s, i);
    forall k | 0 < k < |s'| && Parent(k) != i && k != i ensures Below(cmp, s', k) { assert Below(cmp, s, k); }
    forall k | 0 < i < k < |s'| && Parent(k) == i ensures Le(cmp, s'[Parent(i)], s'[k]) {
      assert Below(cmp, s, k) && Below(cmp, s, i);
    }
    if i == |s| - 1 {
      forall k | 0 < k < |s'| ensures Below(cmp, s', k) { assert Below(cmp, s, k); }
    }
  }

  /** The first item of a heap is a least one. */
  lemma {:induction false} TopIsLeast(cmp: Comparator, s: seq<Item>, i: nat)
    requires TotalPreorder(cmp) && Ordered(cmp, s) && i < |s|
    ensures Le(cmp, s[0], s[i])
    decreases i
  {
    if i > 0 {
      TopIsLeast(cmp, s, Parent(i));
      assert Below(cmp, s, i);
    }
  }

  // ------------------------------------------------------------------------- the heap

  class Heap {
    var data: array<Item>
    var used: nat

    ghost predicate Valid()
      reads this
    {
      used <= data.Length && data.Length > 0
    }

    ghost function Contents(): seq<Item>
      requires Valid()
      reads this, data
    {
      data[..used]
    }

    /** `heap_new`. */
    constructor ()
      ensures Valid() && Contents() == [] && fresh(data)
    {
      data := new Item[8](_ => Item(0, 0));
      used := 0;
    }

    /** `heap_heapify_up`. */
    method HeapifyUp(cmp: Comparator, idx: nat)
      requires Valid() && TotalPreorder(cmp) && idx < used && UpAt(cmp, Contents(), idx)
      modifies data
      ensures Ordered(cmp, Contents()) && multiset(Contents()) == multiset(old(Contents()))
    {
      hide TotalPreorder, UpAt, Ordered, Swap, Le, Below, Bridged;
      var last, i := data[idx], idx;
      ghost var s := Contents();
      assert s[idx := last] == s;
      while i > 0
        invariant 0 <= i < used && |s| == used && s[i] == last && s == Contents()[i := last]
        invariant UpAt(cmp, s, i) && multiset(s) == multiset(old(Contents()))
      {
        var parent := (i - 1) / 2;
        var res := cmp(last.key, data[parent].key);
        if res > 0 { break; }
        UpStep(cmp, s, i);
        MoveHole(Contents(), s, i, parent, last);
        ghost var was := Contents();
        data[i] := data[parent];
        assert Contents() == was[i := was[parent]];
        s := Swap(s, i, parent);
        i := parent;
      }
      UpDone(cmp, s, i);
      data[i] := last;
      assert Contents() == s;
    }

    /** `heap_heapify_down`. */
    method HeapifyDown(cmp: Comparator, pos: nat)
      requires Valid() && TotalPreorder(cmp) && pos < used && DownAt(cmp, Contents(), pos, pos)
      modifies data
      ensures UpAt(cmp, Contents(), pos) && multiset(Contents()) == multiset(old(Contents()))
    {
      hide TotalPreorder, UpAt, DownAt, Swap, Ordered, Le, Parent, Below, Bridged, BeforeChildren;
      var last, i := data[pos], pos;
      ghost var s := Contents();
      assert s[pos := last] == s;
      while 2 * i + 1 < used
        invariant 0 <= i < used && |s| == used && s[i] == last && s == Contents()[i := last]
        invariant DownAt(cmp, s, i, pos) && multiset(s) == multiset(old(Contents()))
        decreases used - i
      {
        var child := 2 * i + 1;
        if child + 1 < used {
          if cmp(data[child + 1].key, data[child].key) < 0 { child := child + 1; }
        }
        LeastChild(cmp, s, i, child);
        ChildOf(i, child);
        if cmp(last.key, data[child].key) <= 0 {
          NoChildBefore(cmp, s, i, child);
          break;
        }
        DownStep(cmp, s, i, pos, child);
        MoveHole(Contents(), s, i, child, last);
        ghost var was := Contents();
        data[i] := data[child];
        assert Contents() == was[i := was[child]];
        s := Swap(s, i, child);
        i := child;
      }
      if 2 * i + 1 >= used { NoChildren(cmp, s, i); }
      DownDone(cmp, s, i, pos);
      data[i] := last;
      assert Contents() == s;
    }

    /** `heap_insert`; the array doubles when it is full. */
    method Insert(cmp: Comparator, key: Ptr, datum: Ptr)
      requires Valid() && TotalPreorder(cmp) && Ordered(cmp, Contents())
      modifies this, data
      ensures Valid() && Ordered(cmp, Contents()) && (data == old(data) || fresh(data))
      ensures multiset(Contents()) == multiset(old(Contents())) + multiset{Item(key, datum)}
    {
      hide TotalPreorder, UpAt, Ordered;
      ghost var s := Contents();
      if used == data.Length { Grow(); }
      Appended(cmp, s, Item(key, datum));
      data[used] := Item(key, datum);
      used := used + 1;
      assert Contents() == s + [Item(key, datum)];
      HeapifyUp(cmp, used - 1);
    }

    method Grow()
      requires Valid()
      modifies `data
      ensures Valid() && Contents() == old(Contents()) && fresh(data) && data.Length == 2 * old(data.Length)
    {
      var old' := data;
      data := new Item[2 * old'.Length](_ => Item(0, 0));
      forall i | 0 <= i < used { data[i] := old'[i]; }
    }

    /** `heap_peek`. */
    method Peek() returns (top: Item)
      requires Valid()
      ensures top == if used > 0 then Contents()[0] else Item(0, 0)
    {
      top := if used > 0 then data[0] else Item(0, 0);
    }

    /** `heap_remove`: the last item takes the place of the one removed, and may have to
        go down or up from there. */
    method Remove(cmp: Comparator, idx: nat)
      requires Valid() && TotalPreorder(cmp) && Ordered(cmp, Contents())
      modifies `used, data
      ensures Valid() && Ordered(cmp, Contents())
      ensures idx >= old(used) ==> Contents() == old(Contents())
      ensures idx < old(used) ==>
        used == old(used) - 1 && multiset(Contents()) == multiset(old(Contents())) - multiset{old(Contents())[idx]}
    {
      hide TotalPreorder, UpAt, DownAt, Ordered, WithoutAt;
      if used <= idx { return; }
      ghost var s := Contents();
      WithoutMultiset(s, idx);
      WithoutDown(cmp, s, idx);
      FillHole(idx);
      if used >= 2 * idx + 1 {
        HeapifyDown(cmp, idx);
      } else if idx < used {
        NoChildren(cmp, Contents(), idx);
        DownDone(cmp, Contents(), idx, idx);
      }
      if idx == 0 && used > 0 { UpDone(cmp, Contents(), 0); }
      if idx > 0 && idx < used { HeapifyUp(cmp, idx); }
    }

    method FillHole(idx: nat)
      requires Valid() && idx < used
      modifies `used, data
      ensures Valid() && Contents() == WithoutAt(old(Contents()), idx)
    {
      used := used - 1;
      data[idx] := data[used];
    }

    /** `heap_pop`. */
    method Pop(cmp: Comparator)
      requires Valid() && TotalPreorder(cmp) && Ordered(cmp, Contents())
      modifies `used, data
      ensures Valid() && Ordered(cmp, Contents())
      ensures old(used) == 0 ==> Contents() == old(Contents())
      ensures old(used) > 0 ==>
        used == old(used) - 1 && multiset(Contents()) == multiset(old(Contents())) - multiset{old(Contents())[0]}
    {
      Remove(cmp, 0);
    }

    /** `heap_remove_pred`, for a predicate without effects. */
    method RemovePred(cmp: Comparator, pred: Item -> bool) returns (remFirst: bool)
      requires Valid() && TotalPreorder(cmp) && Ordered(cmp, Contents())
      modifies `used, data
      ensures Valid() && Ordered(cmp, Contents())
      ensures forall x :: multiset(Contents())[x] == if pred(x) then 0 else multiset(old(Contents()))[x]
      ensures remFirst <==> old(used) > 0 && pred(old(Contents())[0])
    {
      hide TotalPreorder, Ordered, Filtering, Kept, WithoutAt, Swap;
      if used == 0 { return false; }
      ghost var s := Contents();
      var pos: nat;
      FilterNone(multiset(s), pred);
      KeptNone(s, pred);
      if pred(data[0]) {
        FilterOne(multiset(s), multiset(s), pred, s[0]);
        Remove(cmp, 0);
        remFirst := true;
        pos := 0;
      } else {
        remFirst := false;
        pos := 1;
      }
      RemoveRest(cmp, pred, pos, multiset(s));
      FilterAll(s, Contents(), pred);
    }

    /** The loop of `heap_remove_pred`, which starts over after each removal. */
    method RemoveRest(cmp: Comparator, pred: Item -> bool, from: nat, ghost all: multiset<Item>)
      requires Valid() && TotalPreorder(cmp) && Ordered(cmp, Contents()) && from <= 1
      requires Filtering(all, multiset(Contents()), pred) && (from == 1 ==> used > 0 && !pred(data[0]))
      modifies `used, data
      ensures Valid() && Ordered(cmp, Contents())
      ensures Filtering(all, multiset(Contents()), pred) && Kept(Contents(), used, pred)
    {
      hide TotalPreorder, Ordered, Filtering, Kept;
      var pos: nat := from;
      KeptNone(Contents(), pred);
      KeptFirst(Contents(), pos, pred);
      while pos < used
        invariant Valid() && Ordered(cmp, Contents()) && pos <= used
        invariant Filtering(all, multiset(Contents()), pred) && Kept(Contents(), pos, pred)
        decreases used, used - pos
      {
        if pred(data[pos]) {
          FilterOne(all, multiset(Contents()), pred, Contents()[pos]);
          Remove(cmp, pos);
          pos := 0;
        } else {
          pos := pos + 1;
        }
        KeptFirst(Contents(), pos, pred);
      }
    }
  }

  /** Only items that satisfy `pred` have gone. */
  ghost predicate Filtering(all: multiset<Item>, rest: multiset<Item>, pred: Item -> bool) {
    rest <= all && forall x :: !pred(x) ==> rest[x] == all[x]
  }

  /** The predicate holds of none of the first `pos` items. */
  ghost predicate Kept(s: seq<Item>, pos: nat, pred: Item -> bool) {
    pos <= |s| && forall k :: 0 <= k < pos ==> !pred(s[k])
  }

  lemma KeptFirst(s: seq<Item>, pos: nat, pred: Item -> bool)
    requires pos <= |s| && (pos > 0 ==> Kept(s, pos - 1, pred) && !pred(s[pos - 1]))
    ensures Kept(s, pos, pred)
  {
  }

  lemma KeptNone(s: seq<Item>, pred: Item -> bool)
    ensures Kept(s, 0, pred)
  {
  }

  lemma FilterNone(all: multiset<Item>, pred: Item -> bool)
    ensures Filtering(all, all, pred)
  {
  }

  lemma FilterOne(all: multiset<Item>, rest: multiset<Item>, pred: Item -> bool, x: Item)
    requires Filtering(all, rest, pred) && pred(x) && x in rest
    ensures Filtering(all, rest - multiset{x}, pred)
  {
  }

  lemma FilterAll(s: seq<Item>, rest: seq<Item>, pred: Item -> bool)
    requires Filtering(multiset(s), multiset(rest), pred) && Kept(rest, |rest|, pred)
    ensures forall x :: multiset(rest)[x] == if pred(x) then 0 else multiset(s)[x]
  {
    forall x | pred(x) ensures multiset(rest)[x] == 0 { assert x !in rest; }
  }

  /** Moving an item into the hole at `i` swaps it with the item that belongs there. */
  lemma MoveHole(c: seq<Item>, s: seq<Item>, i: nat, j: nat, last: Item)
    requires i < |c| && j < |c| && i != j && s == c[i := last]
    ensures Swap(s, i, j) == c[i := c[j]][j := last] && Swap(s, i, j)[j] == last && s[j] == c[j]
  {
  }

  /** The child chosen is not after the other one. */
  lemma LeastChild(cmp: Comparator, s: seq<Item>, i: nat, child: nat)
    requires TotalPreorder(cmp) && i < |s| && 2 * i + 1 <= child <= 2 * i + 2 && child < |s|
    requires child == 2 * i + 2 ==> cmp(s[child].key, s[2 * i + 1].key) < 0
    requires child == 2 * i + 1 && child + 1 < |s| ==> cmp(s[child + 1].key, s[child].key) >= 0
    ensures BeforeChildren(cmp, s, i, s[child])
  {
    forall k | 0 < k < |s| && Parent(k) == i ensures Le(cmp, s[child], s[k]) {
      assert k == 2 * i + 1 || k == 2 * i + 2;
      assert cmp(s[child].key, s[child].key) <= 0;
    }
  }

  lemma ChildOf(i: nat, child: nat)
    requires 2 * i + 1 <= child <= 2 * i + 2
    ensures Parent(child) == i
  {
  }

  lemma NoChildren(cmp: Comparator, s: seq<Item>, i: nat)
    requires i < |s| <= 2 * i + 1
    ensures BeforeChildren(cmp, s, i, s[i])
  {
  }

  lemma NoChildBefore(cmp: Comparator, s: seq<Item>, i: nat, child: nat)
    requires TotalPreorder(cmp) && i < |s| && child < |s| && cmp(s[i].key, s[child].key) <= 0
    requires BeforeChildren(cmp, s, i, s[child])
    ensures BeforeChildren(cmp, s, i, s[i])
  {
  }
}
