/**
 xheap.c: a binary heap over a growable array of slots, ordered by a comparator of
 which only the sign "greater than zero" is used. Both shifts move a hole instead of
 swapping, and xheap_pop shifts down while the moved last element is still in place.
 */
module Heap {
  import opened Wrappers

  const DEFAULT_SLOTS: nat := 16

  // ----- orders -----

  predicate Greater<T>(cmp: (T, T) -> int, a: T, b: T) {
    cmp(a, b) > 0
  }

  /**
   "Greater than zero" is a strict weak order. Three-way comparators meet this, and so do
   comparators that only answer one for greater and zero otherwise.
   */
  ghost predicate StrictWeakOrder<T(!new)>(cmp: (T, T) -> int) {
    && (forall a :: !Greater(cmp, a, a))
    && (forall a, b, c :: Greater(cmp, a, b) && Greater(cmp, b, c) ==> Greater(cmp, a, c))
    && (forall a, b, c :: !Greater(cmp, a, b) && !Greater(cmp, b, c) ==> !Greater(cmp, a, c))
  }

  lemma Asymmetric<T(!new)>(cmp: (T, T) -> int, a: T, b: T)
    requires StrictWeakOrder(cmp) && Greater(cmp, a, b)
    ensures !Greater(cmp, b, a)
  {
    assert !Greater(cmp, a, a);
  }

  function Parent(i: nat): (p: nat)
    requires i > 0
    ensures p < i && (i == 2 * p + 1 || i == 2 * p + 2)
  {
    (i - 1) / 2
  }

  /** No slot is greater than a slot below it. */
  ghost predicate Ordered<T>(cmp: (T, T) -> int, s: seq<T>) {
    forall i :: 0 < i < |s| ==> !Greater(cmp, s[Parent(i)], s[i])
  }

  ghost predicate Sorted<T>(cmp: (T, T) -> int, s: seq<T>) {
    forall i, j :: 0 <= i < j < |s| ==> !Greater(cmp, s[i], s[j])
  }

  /** The first slot of a heap is a least element. */
  lemma {:induction false} RootIsLeast<T(!new)>(cmp: (T, T) -> int, s: seq<T>, i: nat)
    requires StrictWeakOrder(cmp) && Ordered(cmp, s) && i < |s|
    ensures !Greater(cmp, s[0], s[i])
  {
    if i > 0 {
      RootIsLeast(cmp, s, Parent(i));
    }
  }

  lemma RootIsLeastOfAll<T(!new)>(cmp: (T, T) -> int, s: seq<T>)
    requires StrictWeakOrder(cmp) && Ordered(cmp, s) && |s| > 0
    ensures forall x :: x in multiset(s) ==> !Greater(cmp, s[0], x)
    ensures s[0] in multiset(s)
  {
    forall x | x in multiset(s)
      ensures !Greater(cmp, s[0], x)
    {
      var i :| 0 <= i < |s| && s[i] == x;
      RootIsLeast(cmp, s, i);
    }
  }

  lemma SwapKeepsElements<T>(s: seq<T>, i: nat, j: nat)
    requires i < |s| && j < |s|
    ensures multiset(s[i := s[j]][j := s[i]]) == multiset(s)
  {
  }

  /** Ordered, except that the element at `hole` may be too small for its place. */
  ghost predicate OrderedButUp<T>(cmp: (T, T) -> int, s: seq<T>, hole: nat)
    requires hole < |s|
  {
    && (forall i :: 0 < i < |s| && i != hole ==> !Greater(cmp, s[Parent(i)], s[i]))
    && (hole > 0 ==> forall i :: 0 < i < |s| && Parent(i) == hole ==> !Greater(cmp, s[Parent(hole)], s[i]))
  }

  /** Moving the too small element to its parent's place, and the parent down. */
  lemma UpStep<T(!new)>(cmp: (T, T) -> int, s: seq<T>, hole: nat)
    requires StrictWeakOrder(cmp) && 0 < hole < |s| && OrderedButUp(cmp, s, hole)
    requires Greater(cmp, s[Parent(hole)], s[hole])
    ensures OrderedButUp(cmp, s[hole := s[Parent(hole)]][Parent(hole) := s[hole]], Parent(hole))
  {
    var p := Parent(hole);
    var v := s[hole := s[p]][p := s[hole]];
    forall i | 0 < i < |v| && i != p
      ensures !Greater(cmp, v[Parent(i)], v[i])
    {
      if Parent(i) == p && i != hole {
        assert !Greater(cmp, s[p], s[i]);
      }
    }
    if p > 0 {
      forall i | 0 < i < |v| && Parent(i) == p
        ensures !Greater(cmp, v[Parent(p)], v[i])
      {
        assert !Greater(cmp, s[Parent(p)], s[p]);
        assert i != hole ==> !Greater(cmp, s[p], s[i]);
      }
    }
  }

  lemma UpStart<T>(cmp: (T, T) -> int, s: seq<T>, x: T)
    requires Ordered(cmp, s)
    ensures OrderedButUp(cmp, s + [x], |s|)
  {
  }

  lemma UpDone<T>(cmp: (T, T) -> int, s: seq<T>, hole: nat)
    requires hole < |s| && OrderedButUp(cmp, s, hole)
    requires hole > 0 ==> !Greater(cmp, s[Parent(hole)], s[hole])
    ensures Ordered(cmp, s)
  {
  }

  /** Ordered, except that the element at `hole` may be too great for its place. */
  ghost predicate OrderedButDown<T>(cmp: (T, T) -> int, s: seq<T>, hole: nat)
    requires hole < |s|
  {
    && (forall i :: 0 < i < |s| && Parent(i) != hole ==> !Greater(cmp, s[Parent(i)], s[i]))
    && (hole > 0 ==> forall i :: 0 < i < |s| && Parent(i) == hole ==> !Greater(cmp, s[Parent(hole)], s[i]))
  }

  /** Moving the too great element to the place of its least child, and that child up. */
  lemma DownStep<T(!new)>(cmp: (T, T) -> int, s: seq<T>, hole: nat, child: nat)
    requires StrictWeakOrder(cmp) && hole < |s| && OrderedButDown(cmp, s, hole)
    requires 0 < child < |s| && Parent(child) == hole && Greater(cmp, s[hole], s[child])
    requires forall i :: 0 < i < |s| && Parent(i) == hole ==> !Greater(cmp, s[child], s[i])
    ensures OrderedButDown(cmp, s[hole := s[child]][child := s[hole]], child)
  {
    var v := s[hole := s[child]][child := s[hole]];
    forall i | 0 < i < |v| && Parent(i) != child
      ensures !Greater(cmp, v[Parent(i)], v[i])
    {
      if i == child {
        Asymmetric(cmp, s[hole], s[child]);
      }
    }
    forall i | 0 < i < |v| && Parent(i) == child
      ensures !Greater(cmp, v[Parent(child)], v[i])
    {
      assert !Greater(cmp, s[child], s[i]);
    }
  }

  lemma DownDone<T>(cmp: (T, T) -> int, s: seq<T>, hole: nat)
    requires hole < |s| && OrderedButDown(cmp, s, hole)
    requires forall i :: 0 < i < |s| && Parent(i) == hole ==> !Greater(cmp, s[hole], s[i])
    ensures Ordered(cmp, s)
  {
  }

  /** Putting any element at the root of a heap leaves at most that element too great. */
  lemma RootReplaced<T>(cmp: (T, T) -> int, s: seq<T>, x: T)
    requires Ordered(cmp, s) && |s| > 0
    ensures OrderedButDown(cmp, s[0 := x], 0)
  {
  }

  lemma RootRemoved<T>(s: seq<T>, x: T)
    requires |s| > 0
    ensures multiset(s[0 := x]) == multiset(s + [x]) - multiset{(s + [x])[0]}
  {
    assert s + [x] == [s[0]] + s[1..] + [x];
    assert s[0 := x] == [x] + s[1..];
  }

  /** The element a comparison of xheap_shift_down reads: behind the remaining slots stands the moved one. */
  function At<T>(v: seq<T>, data: T, i: nat): T
    requires i <= |v|
  {
    if i == |v| then data else v[i]
  }

  /** The child that the loop selects is a least one, even if one side of the comparison was the moved element. */
  lemma LeastChild<T(!new)>(cmp: (T, T) -> int, v: seq<T>, data: T, hole: nat, child: nat)
    requires StrictWeakOrder(cmp) && hole < |v| && 2 * (hole + 1) <= |v|
    requires child
             == (if Greater(cmp, At(v, data, 2 * (hole + 1)), v[2 * hole + 1]) then 2 * hole + 1 else 2 * (hole + 1))
    ensures child < |v| ==> forall i :: 0 < i < |v| && Parent(i) == hole ==> !Greater(cmp, v[child], v[i])
    ensures !Greater(cmp, data, At(v, data, child))
        ==> forall i :: 0 < i < |v| && Parent(i) == hole ==> !Greater(cmp, data, v[i])
  {
    var right := At(v, data, 2 * (hole + 1));
    if Greater(cmp, right, v[2 * hole + 1]) {
      Asymmetric(cmp, right, v[2 * hole + 1]);
    }
    forall i | 0 < i < |v| && Parent(i) == hole
      ensures !Greater(cmp, At(v, data, child), v[i])
    {
      assert i == 2 * hole + 1 || i == 2 * hole + 2;
    }
  }

  lemma OrderedPrefix<T>(cmp: (T, T) -> int, s: seq<T>, n: nat)
    requires n <= |s| && Ordered(cmp, s)
    ensures Ordered(cmp, s[..n])
  {
  }

  /** The remaining slots with the last element put at the root. */
  lemma WithLastAtRoot<T>(cmp: (T, T) -> int, all: seq<T>) returns (start: seq<T>)
    requires Ordered(cmp, all) && |all| > 0
    ensures |start| == |all| - 1
    ensures forall i {:trigger start[i]} :: 0 <= i < |start| ==> start[i] == if i == 0 then all[|all| - 1] else all[i]
    ensures |start| > 0 ==> OrderedButDown(cmp, start, 0)
    ensures multiset(start) == multiset(all) - multiset{all[0]}
  {
    var last := all[|all| - 1];
    start := all[..|all| - 1];
    assert all == start + [last];
    if |start| > 0 {
      OrderedPrefix(cmp, all, |start|);
      RootReplaced(cmp, start, last);
      RootRemoved(start, last);
      start := start[0 := last];
    }
  }

  /** Everything taken out so far is at most everything left. */
  ghost predicate Below<T>(cmp: (T, T) -> int, out: seq<T>, rest: multiset<T>) {
    forall i, x :: 0 <= i < |out| && x in rest ==> !Greater(cmp, out[i], x)
  }

  lemma TakeLeast<T>(cmp: (T, T) -> int, out: seq<T>, rest: multiset<T>, least: T, rest': multiset<T>)
    requires Sorted(cmp, out) && Below(cmp, out, rest) && rest == rest' + multiset{least}
    requires forall x :: x in rest ==> !Greater(cmp, least, x)
    ensures Sorted(cmp, out + [least]) && Below(cmp, out + [least], rest')
  {
    assert least in rest;
    forall i, x | 0 <= i < |out + [least]| && x in rest'
      ensures !Greater(cmp, (out + [least])[i], x)
    {
      assert x in rest;
    }
  }

  // ----- the heap -----

  class Heap<T(0, !new)> {
    const cmp: (T, T) -> int
    var slots: array<T>
    var used: nat

    ghost predicate Valid()
      reads this, slots
    {
      && StrictWeakOrder(cmp)
      && slots.Length > 0 && used <= slots.Length
      && Ordered(cmp, slots[..used])
    }

    ghost function Elements(): multiset<T>
      reads this, slots
      requires used <= slots.Length
    {
      multiset(slots[..used])
    }

    /** xheap_create. */
    constructor (cmp: (T, T) -> int)
      requires StrictWeakOrder(cmp)
      ensures Valid() && this.cmp == cmp && fresh(slots) && Elements() == multiset{}
    {
      this.cmp := cmp;
      slots := new T[DEFAULT_SLOTS];
      used := 0;
    }

    /** The loop of xheap_shift_up; the hole starts behind the used slots. */
    method Rise(data: T, ghost all: seq<T>) returns (hole: nat, ghost v: seq<T>)
      requires Valid() && used < slots.Length && all == slots[..used] + [data]
      modifies slots
      ensures Rising(v, hole, data, all)
      ensures hole > 0 ==> !Greater(cmp, slots[Parent(hole)], data)
    {
      hide StrictWeakOrder, OrderedButUp, Ordered;
      hole := used;
      UpStart(cmp, slots[..used], data);
      v := all;
      while hole > 0 && cmp(slots[(hole - 1) / 2], data) > 0
        invariant Rising(v, hole, data, all)
      {
        var parent := Parent(hole);
        UpStep(cmp, v, hole);
        SwapKeepsElements(v, hole, parent);
        v := v[hole := v[parent]][parent := data];
        slots[hole] := slots[parent];
        hole := parent;
      }
    }

    /** xheap_shift_up. */
    method ShiftUp(data: T)
      requires Valid() && used < slots.Length
      modifies slots
      ensures Ordered(cmp, slots[..used + 1])
      ensures multiset(slots[..used + 1]) == old(multiset(slots[..used])) + multiset{data}
    {
      hide StrictWeakOrder, OrderedButUp, Ordered;
      var hole, v := Rise(data, slots[..used] + [data]);
      assert hole > 0 ==> slots[Parent(hole)] == v[Parent(hole)];
      slots[hole] := data;
      UpDone(cmp, v, hole);
      assert slots[..used + 1] == v;
    }

    /** The loop invariant of ShiftUp: `v` is the used slots and the next one, with the hole filled. */
    ghost predicate Rising(v: seq<T>, hole: nat, data: T, all: seq<T>)
      reads this, slots
    {
      && hole <= used < slots.Length && |v| == used + 1
      && (forall i {:trigger v[i]} :: 0 <= i < |v| ==> v[i] == if i == hole then data else slots[i])
      && OrderedButUp(cmp, v, hole)
      && multiset(v) == multiset(all)
    }

    /** The growth of xheap_push. */
    method Grow()
      requires Valid()
      modifies this`slots
      ensures Valid() && fresh(slots) && slots.Length == 2 * old(slots.Length)
      ensures slots[..used] == old(slots[..used])
    {
      hide StrictWeakOrder, Ordered;
      var grown := new T[2 * slots.Length];
      forall i | 0 <= i < slots.Length {
        grown[i] := slots[i];
      }
      slots := grown;
      assert slots[..used] == old(slots[..used]);
    }

    /** xheap_push: the slots double when they are full. */
    method Push(data: T)
      requires Valid()
      modifies this, slots
      ensures Valid() && (slots == old(slots) || fresh(slots))
      ensures Elements() == old(Elements()) + multiset{data} && used == old(used) + 1
      ensures slots.Length == if old(used) < old(slots.Length) then old(slots.Length) else 2 * old(slots.Length)
    {
      hide StrictWeakOrder, Ordered;
      if used >= slots.Length {
        Grow();
      }
      ShiftUp(data);
      used := used + 1;
    }

    /** The comparison between the two children; the right one may be the slot of the moved element. */
    method PickChild(hole: nat, data: T, ghost v: seq<T>, ghost all: seq<T>) returns (child: nat)
      requires StrictWeakOrder(cmp) && used > 0 && Shifting(v, hole, used - 1, data, all)
      requires slots[used - 1] == data && 2 * (hole + 1) <= used - 1
      ensures hole < child <= used - 1 && slots[child] == At(v, data, child)
      ensures child < used - 1 ==> Parent(child) == hole && slots[child] == v[child]
      ensures child < used - 1 ==> forall i :: 0 < i < |v| && Parent(i) == hole ==> !Greater(cmp, v[child], v[i])
      ensures cmp(data, slots[child]) <= 0
          ==> forall i :: 0 < i < |v| && Parent(i) == hole ==> !Greater(cmp, data, v[i])
      ensures child == used - 1 ==> cmp(data, slots[child]) <= 0
    {
      hide OrderedButDown, Ordered;
      child := 2 * (hole + 1);
      assert slots[child - 1] == v[child - 1] && slots[child] == At(v, data, child);
      if cmp(slots[child], slots[child - 1]) > 0 {
        child := child - 1;
      }
      LeastChild(cmp, v, data, hole, child);
      assert !Greater(cmp, data, data);
    }

    /** Moving the child up into the hole. */
    method MoveUp(hole: nat, child: nat, data: T, ghost v: seq<T>, ghost all: seq<T>) returns (ghost v': seq<T>)
      requires StrictWeakOrder(cmp) && used > 0 && Shifting(v, hole, used - 1, data, all) && slots[used - 1] == data
      requires hole < child < used - 1 && Parent(child) == hole && Greater(cmp, data, v[child])
      requires forall i :: 0 < i < |v| && Parent(i) == hole ==> !Greater(cmp, v[child], v[i])
      modifies slots
      ensures Shifting(v', child, used - 1, data, all) && slots[used - 1] == data
    {
      hide StrictWeakOrder, OrderedButDown, Ordered;
      DownStep(cmp, v, hole, child);
      SwapKeepsElements(v, hole, child);
      v' := v[hole := v[child]][child := data];
      hide Greater;
      slots[hole] := slots[child];
    }

    /**
     The loop of xheap_shift_down from the root, with `used` not yet lowered: the moved element is
     still in the last used slot and takes part in the comparisons as a right child.
     */
    method Sink(data: T, ghost start: seq<T>, ghost all: seq<T>) returns (hole: nat, ghost v: seq<T>)
      requires StrictWeakOrder(cmp) && 0 < used <= slots.Length && data == slots[used - 1] && |start| == used - 1
      requires |start| > 0 ==> Shifting(start, 0, used - 1, data, all)
      modifies slots
      ensures |v| == |start| && (|v| == 0 ==> hole == 0)
      ensures |v| > 0 ==> Shifting(v, hole, used - 1, data, all)
      ensures forall i :: 0 < i < |v| && Parent(i) == hole ==> !Greater(cmp, data, v[i])
    {
      hide StrictWeakOrder, OrderedButDown, Ordered;
      v, hole := start, 0;
      var left, minChild := used - 1, 2;
      while minChild <= left
        invariant left == used - 1 && minChild == 2 * (hole + 1) && |v| == left && slots[left] == data
        invariant if left == 0 then hole == 0 else Shifting(v, hole, left, data, all)
        decreases left - hole
      {
        minChild := PickChild(hole, data, v, all);
        if cmp(data, slots[minChild]) <= 0 {
          return;
        }
        v := MoveUp(hole, minChild, data, v, all);
        hole := minChild;
        minChild := 2 * (hole + 1);
      }
    }

    /** Filling the hole ends the shift. */
    method Fill(hole: nat, data: T, ghost v: seq<T>, ghost all: seq<T>)
      requires 0 < used <= slots.Length && |v| == used - 1
      requires if |v| == 0 then hole == 0 else Shifting(v, hole, used - 1, data, all)
      requires forall i :: 0 < i < |v| && Parent(i) == hole ==> !Greater(cmp, data, v[i])
      modifies slots
      ensures slots[..used - 1] == v && Ordered(cmp, v)
    {
      if |v| > 0 {
        DownDone(cmp, v, hole);
      }
      hide OrderedButDown;
      slots[hole] := data;
    }

    /** xheap_shift_down. */
    method ShiftDown(data: T)
      requires Valid() && used > 0 && data == slots[used - 1]
      modifies slots
      ensures Ordered(cmp, slots[..used - 1])
      ensures multiset(slots[..used - 1]) == old(multiset(slots[..used])) - multiset{old(slots[0])}
    {
      hide StrictWeakOrder, OrderedButDown, Ordered;
      ghost var all := slots[..used];
      ghost var start := WithLastAtRoot(cmp, all);
      var hole, v := Sink(data, start, all);
      Fill(hole, data, v, all);
    }

    /** The loop invariant of ShiftDown: `v` is the first `n` slots with the hole filled. */
    ghost predicate Shifting(v: seq<T>, hole: nat, n: nat, data: T, all: seq<T>)
      reads this, slots
    {
      && hole < n == |v| && n < slots.Length && |all| > 0
      && (forall i {:trigger v[i]} :: 0 <= i < n ==> v[i] == if i == hole then data else slots[i])
      && OrderedButDown(cmp, v, hole)
      && multiset(v) == multiset(all) - multiset{all[0]}
    }

    /** xheap_pop. */
    method Pop() returns (top: Option<T>)
      requires Valid()
      modifies this, slots
      ensures Valid() && slots == old(slots)
      ensures top.None? <==> old(used) == 0
      ensures top.None? ==> Elements() == multiset{} && used == 0
      ensures top.Some? ==> old(Elements()) == Elements() + multiset{top.value} && used == old(used) - 1
      ensures top.Some? ==> forall x :: x in old(Elements()) ==> !Greater(cmp, top.value, x)
    {
      if used == 0 {
        return None;
      }
      hide StrictWeakOrder, Ordered;
      var data := slots[0];
      RootIsLeastOfAll(cmp, slots[..used]);
      ShiftDown(slots[used - 1]);
      used := used - 1;
      top := Some(data);
    }

    /** Popping until the heap is empty: a sorted permutation of what it held. */
    method Drain() returns (out: seq<T>)
      requires Valid()
      modifies this, slots
      ensures Valid() && used == 0
      ensures multiset(out) == old(Elements()) && Sorted(cmp, out)
    {
      hide StrictWeakOrder, Ordered, Sorted, Below;
      out := [];
      NothingTaken(cmp, Elements());
      while true
        invariant Valid() && slots == old(slots)
        invariant multiset(out) + Elements() == old(Elements())
        invariant Sorted(cmp, out) && Below(cmp, out, Elements())
        decreases used
      {
        ghost var before := Elements();
        var tmp := Pop();
        if tmp.None? {
          break;
        }
        TakeLeast(cmp, out, before, tmp.value, Elements());
        out := out + [tmp.value];
      }
    }
  }

  lemma NothingTaken<T>(cmp: (T, T) -> int, rest: multiset<T>)
    ensures Sorted(cmp, []) && Below(cmp, [], rest)
  {
  }

  // ----- xheap_traverse -----

  /** The slots that xheap_traverse hands to its handler when started at `i` in a heap of `n` slots, in order. */
  function Visits(n: nat, i: nat): (out: seq<nat>)
    ensures forall k :: 0 <= k < |out| ==> out[k] < n
    decreases n - i
  {
    if i < n then Visits(n, 2 * i + 1) + [i] + Visits(n, 2 * i + 2) else []
  }

  /** Slot `j` lies in the subtree of slot `i`. */
  predicate Under(i: nat, j: nat) {
    j == i || (j > i && Under(i, Parent(j)))
  }

  lemma {:induction false} RootAbove(j: nat)
    ensures Under(0, j)
  {
    if j > 0 {
      RootAbove(Parent(j));
    }
  }

  /** Below a slot lies exactly one of its two children. */
  lemma {:induction false} OneSide(i: nat, j: nat)
    ensures Under(i, j) <==> j == i || Under(2 * i + 1, j) || Under(2 * i + 2, j)
    ensures !(Under(2 * i + 1, j) && Under(2 * i + 2, j))
    ensures !Under(2 * i + 1, i) && !Under(2 * i + 2, i)
    decreases j
  {
    if j > 0 {
      OneSide(i, Parent(j));
    }
  }

  /** How often the traversal from `i` visits slot `j`. */
  function Times(n: nat, i: nat, j: nat): nat {
    multiset(Visits(n, i))[j]
  }

  lemma TimesSplit(n: nat, i: nat, j: nat)
    ensures i < n ==> Times(n, i, j) == Times(n, 2 * i + 1, j) + (if j == i then 1 else 0) + Times(n, 2 * i + 2, j)
    ensures i >= n ==> Times(n, i, j) == 0
  {
    if i < n {
      var l, r := Visits(n, 2 * i + 1), Visits(n, 2 * i + 2);
      assert Visits(n, i) == l + [i] + r;
      assert multiset(l + [i] + r) == multiset(l) + multiset{i} + multiset(r);
    }
  }

  lemma VisitsStep(n: nat, i: nat, j: nat)
    requires j < n && i < n
    requires Times(n, 2 * i + 1, j) == if Under(2 * i + 1, j) then 1 else 0
    requires Times(n, 2 * i + 2, j) == if Under(2 * i + 2, j) then 1 else 0
    ensures Times(n, i, j) == if Under(i, j) then 1 else 0
  {
    OneSide(i, j);
    TimesSplit(n, i, j);
    hide Times, Under, Visits;
    if j == i {
      assert !Under(2 * i + 1, i);
    } else if Under(2 * i + 1, j) {
    }
  }

  lemma NotUnder(i: nat, j: nat)
    requires j < i
    ensures !Under(i, j)
  {
  }

  /** Started at any slot, the traversal visits exactly the slots below it, each once. */
  lemma {:induction false} VisitsOnce(n: nat, i: nat, j: nat)
    requires j < n
    ensures Times(n, i, j) == if Under(i, j) then 1 else 0
    decreases n - i
  {
    hide Times, Under, Visits;
    if i < n {
      VisitsOnce(n, 2 * i + 1, j);
      VisitsOnce(n, 2 * i + 2, j);
      VisitsStep(n, i, j);
    } else {
      TimesSplit(n, i, j);
      NotUnder(i, j);
    }
  }

  /** xheap_traverse from the root visits every used slot exactly once. */
  lemma TraverseVisitsAll(n: nat, j: nat)
    requires j < n
    ensures Times(n, 0, j) == 1
  {
    VisitsOnce(n, 0, j);
    RootAbove(j);
  }

  /** What the handler is given: the elements of the slots visited, in that order. */
  function Handed<T>(s: seq<T>, i: nat): seq<T>
    decreases |s| - i
  {
    if i < |s| then Handed(s, 2 * i + 1) + [s[i]] + Handed(s, 2 * i + 2) else []
  }

  lemma {:induction false} HandedIsVisited<T>(s: seq<T>, i: nat)
    ensures |Handed(s, i)| == |Visits(|s|, i)|
    ensures forall k :: 0 <= k < |Handed(s, i)| ==> Handed(s, i)[k] == s[Visits(|s|, i)[k]]
    decreases |s| - i
  {
    if i < |s| {
      HandedIsVisited(s, 2 * i + 1);
      HandedIsVisited(s, 2 * i + 2);
    }
  }

  /** xheap_traverse; `seen` is what the handler has been given. */
  method Traverse<T(0, !new)>(heap: Heap<T>, index: nat, seen: seq<T>) returns (seen': seq<T>)
    requires heap.used <= heap.slots.Length
    ensures seen' == seen + Handed(heap.slots[..heap.used], index)
    decreases heap.used - index
  {
    ghost var s := heap.slots[..heap.used];
    seen' := seen;
    if index < heap.used {
      assert s[index] == heap.slots[index];
      assert Handed(s, index) == Handed(s, 2 * index + 1) + [s[index]] + Handed(s, 2 * index + 2);
      ghost var l, r := Handed(s, 2 * index + 1), Handed(s, 2 * index + 2);
      hide Handed, Visits;
      seen' := Traverse(heap, 2 * index + 1, seen');
      seen' := seen' + [heap.slots[index]];
      assert seen' == seen + l + [s[index]];
      seen' := Traverse(heap, 2 * index + 2, seen');
      assert seen + l + [s[index]] + r == seen + (l + [s[index]] + r);
    }
  }

  /** Comparators of either kind on a key: the difference, and one for greater and zero otherwise. */
  lemma KeyComparators<T(!new)>(key: T -> int)
    ensures StrictWeakOrder((a: T, b: T) => key(a) - key(b))
    ensures StrictWeakOrder((a: T, b: T) => if key(a) > key(b) then 1 else 0)
  {
  }
}
