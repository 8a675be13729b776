/**
 The circular doubly linked lists of include/xlist.h and src/eloop/list.h at the level of
 their pointers: a head that is not an element, and elements linked in both directions.
 Every operation is proved to be an operation on the sequence of elements. Module TimerLists
 builds the event loop's timer list on them; the two list steps of module Queue, a node added
 at the end and the first one taken, are AddTail and Get.
 */
module Ring {

  class Link<T> {
    var next: Link?<T>
    var prev: Link?<T>
    const data: T   // what the element was made for; set before it is linked

    constructor (data: T)
      ensures this.data == data
    {
      this.data := data;
      next, prev := null, null;
    }
  }

  /** Element `i` of the ring; on both sides of the elements stands the head. */
  ghost function At<T>(head: Link<T>, nodes: seq<Link<T>>, i: int): Link<T> {
    if 0 <= i < |nodes| then nodes[i] else head
  }

  ghost predicate Distinct<T>(head: Link<T>, nodes: seq<Link<T>>) {
    && (forall i, j :: 0 <= i < j < |nodes| ==> nodes[i] != nodes[j])
    && head !in nodes
  }

  ghost predicate Ring<T>(head: Link<T>, nodes: seq<Link<T>>)
    reads head, nodes
  {
    && Distinct(head, nodes)
    && (forall i :: -1 <= i < |nodes| ==> At(head, nodes, i).next == At(head, nodes, i + 1))
    && (forall i :: 0 <= i <= |nodes| ==> At(head, nodes, i).prev == At(head, nodes, i - 1))
  }

  /** INIT_XLIST_HEAD and dl_list_init. */
  method Init<T>(head: Link<T>)
    modifies head
    ensures Ring(head, [])
  {
    head.next := head;
    head.prev := head;
  }

  /** __xlist_add, and dl_list_add with `next` the successor of `prev`: a new element at position `k`. */
  method Insert<T>(item: Link<T>, prev: Link<T>, next: Link<T>,
                   ghost head: Link<T>, ghost nodes: seq<Link<T>>, ghost k: nat)
    requires Ring(head, nodes) && k <= |nodes|
    requires prev == At(head, nodes, k - 1) && next == At(head, nodes, k)
    requires item != head && item !in nodes
    modifies item, prev, next
    ensures Ring(head, nodes[..k] + [item] + nodes[k..])
  {
    next.prev := item;
    item.next := next;
    item.prev := prev;
    prev.next := item;
    ghost var after := nodes[..k] + [item] + nodes[k..];
    assert Distinct(head, after);
    forall i | -1 <= i < |after|
      ensures At(head, after, i).next == At(head, after, i + 1)
    {
      var j := if i < k then i else i - 1;
      if i != k {
        assert At(head, after, i) == At(head, nodes, j);
        assert old(At(head, nodes, j).next) == At(head, nodes, j + 1);
        assert i != k - 1 ==> At(head, after, i + 1) == At(head, nodes, j + 1);
      }
    }
    forall i | 0 <= i <= |after|
      ensures At(head, after, i).prev == At(head, after, i - 1)
    {
      var j := if i < k then i else i - 1;
      if i != k {
        assert At(head, after, i) == At(head, nodes, j);
        assert old(At(head, nodes, j).prev) == At(head, nodes, j - 1);
        assert i != k + 1 ==> At(head, after, i - 1) == At(head, nodes, j - 1);
      }
    }
  }

  /** xlist_add_tail and dl_list_add_tail. */
  method AddTail<T>(item: Link<T>, head: Link<T>, ghost nodes: seq<Link<T>>)
    requires Ring(head, nodes) && item != head && item !in nodes
    modifies item, head, nodes
    ensures Ring(head, nodes + [item])
  {
    assert At(head, nodes, |nodes|).prev == At(head, nodes, |nodes| - 1);
    Insert(item, head.prev, head, head, nodes, |nodes|);
    assert nodes[..|nodes|] + [item] + nodes[|nodes|..] == nodes + [item];
  }

  /** xlist_del and dl_list_del: the element at position `k` is unlinked and its own pointers are cleared. */
  method Delete<T>(entry: Link<T>, ghost head: Link<T>, ghost nodes: seq<Link<T>>, ghost k: nat)
    requires Ring(head, nodes) && k < |nodes| && nodes[k] == entry
    modifies entry, At(head, nodes, k - 1), At(head, nodes, k + 1)
    ensures Ring(head, nodes[..k] + nodes[k + 1..])
    ensures entry.next == null && entry.prev == null
  {
    ghost var after := nodes[..k] + nodes[k + 1..];
    assert entry == At(head, nodes, k);
    assert entry.next == At(head, nodes, k + 1) && entry.prev == At(head, nodes, k - 1);
    entry.next.prev := entry.prev;
    entry.prev.next := entry.next;
    entry.next := null;
    entry.prev := null;
    assert Distinct(head, after);
    forall i | -1 <= i < |after|
      ensures At(head, after, i).next == At(head, after, i + 1)
    {
      var j := if i < k then i else i + 1;
      assert At(head, after, i) == At(head, nodes, j);
      assert old(At(head, nodes, j).next) == At(head, nodes, j + 1);
      assert At(head, after, i + 1) == At(head, nodes, if i + 1 < k then i + 1 else i + 2);
    }
    forall i | 0 <= i <= |after|
      ensures At(head, after, i).prev == At(head, after, i - 1)
    {
      var j := if i < k then i else i + 1;
      assert At(head, after, i) == At(head, nodes, j);
      assert old(At(head, nodes, j).prev) == At(head, nodes, j - 1);
      assert At(head, after, i - 1) == At(head, nodes, if i - 1 < k then i - 1 else i);
    }
  }

  /** xlist_get: takes the first element off, or returns nothing. */
  method Get<T>(head: Link<T>, ghost nodes: seq<Link<T>>) returns (node: Link?<T>)
    requires Ring(head, nodes)
    modifies head, nodes
    ensures nodes == [] ==> node == null && Ring(head, [])
    ensures nodes != [] ==> node == nodes[0] && Ring(head, nodes[1..])
  {
    Links(head, nodes, -1);
    assert head !in nodes;
    hide Ring, Distinct;
    node := head.next;
    if node == head {
      assert nodes == [];
      return null;
    }
    Delete(node, head, nodes, 0);
    assert nodes[..0] + nodes[1..] == nodes[1..];
  }

  /** dl_list_len. */
  method Len<T>(head: Link<T>, ghost nodes: seq<Link<T>>) returns (count: nat)
    requires Ring(head, nodes)
    ensures count == |nodes|
  {
    count := 0;
    assert At(head, nodes, -1).next == At(head, nodes, 0);
    var item := head.next;
    while item != head
      invariant count <= |nodes| && item == At(head, nodes, count)
      decreases |nodes| - count
    {
      assert At(head, nodes, count).next == At(head, nodes, count + 1);
      count := count + 1;
      item := item.next;
    }
  }

  /** The elements that a deleting iteration leaves. */
  ghost function Kept<T>(nodes: seq<Link<T>>, drop: T -> bool): seq<Link<T>> {
    if nodes == [] then []
    else Kept(nodes[..|nodes| - 1], drop) + if drop(nodes[|nodes| - 1].data) then [] else [nodes[|nodes| - 1]]
  }

  lemma KeptNext<T>(nodes: seq<Link<T>>, drop: T -> bool, k: nat)
    requires k < |nodes|
    ensures var kept := Kept(nodes[..k], drop);
            var now := kept + nodes[k..];
            && now[|kept|] == nodes[k]
            && Kept(nodes[..k + 1], drop) + nodes[k + 1..]
               == (if drop(nodes[k].data) then now[..|kept|] + now[|kept| + 1..] else now)
            && |Kept(nodes[..k + 1], drop)| == |kept| + (if drop(nodes[k].data) then 0 else 1)
  {
    assert nodes[..k + 1][..k] == nodes[..k];
    assert nodes[k..] == [nodes[k]] + nodes[k + 1..];
  }

  lemma {:induction false} KeptAreNodes<T>(nodes: seq<Link<T>>, drop: T -> bool, k: nat)
    requires k <= |nodes|
    ensures forall x :: x in Kept(nodes[..k], drop) + nodes[k..] ==> x in nodes
  {
    if k > 0 {
      KeptAreNodes(nodes, drop, k - 1);
      KeptNext(nodes, drop, k - 1);
    }
  }

  lemma Links<T>(head: Link<T>, nodes: seq<Link<T>>, i: int)
    requires Ring(head, nodes) && -1 <= i < |nodes|
    ensures At(head, nodes, i).next == At(head, nodes, i + 1)
  {
  }

  lemma BackLinks<T>(head: Link<T>, nodes: seq<Link<T>>, i: int)
    requires Ring(head, nodes) && 0 <= i <= |nodes|
    ensures At(head, nodes, i).prev == At(head, nodes, i - 1)
  {
  }

  lemma NotHead<T>(head: Link<T>, nodes: seq<Link<T>>, i: int)
    requires Ring(head, nodes) && 0 <= i <= |nodes|
    ensures At(head, nodes, i) == head <==> i == |nodes|
  {
  }

  /** The list while a deleting iteration stands before element `k`. */
  ghost function During<T>(nodes: seq<Link<T>>, drop: T -> bool, k: nat): seq<Link<T>>
    requires k <= |nodes|
  {
    Kept(nodes[..k], drop) + nodes[k..]
  }

  /** The body of the deleting iteration. */
  method Judge<T>(item: Link<T>, head: Link<T>, ghost nodes: seq<Link<T>>, drop: T -> bool, ghost k: nat)
    returns (dropped: bool)
    requires k < |nodes| && item == nodes[k] && Ring(head, During(nodes, drop, k))
    modifies head, nodes
    ensures Ring(head, During(nodes, drop, k + 1)) && dropped == drop(item.data)
  {
    KeptNext(nodes, drop, k);
    KeptAreNodes(nodes, drop, k);
    hide Ring, Kept;
    ghost var now, p := During(nodes, drop, k), |Kept(nodes[..k], drop)|;
    dropped := drop(item.data);
    if dropped {
      assert At(head, now, p - 1) == head || At(head, now, p - 1) in now;
      assert At(head, now, p + 1) == head || At(head, now, p + 1) in now;
      Delete(item, head, now, p);
    }
  }

  /**
   dl_list_for_each_safe with deletion in its body, the loop of eloop_cancel_timeout: the successor is
   read before the element is judged, so unlinking the element does not disturb the iteration.
   */
  method RemoveMatching<T>(head: Link<T>, ghost nodes: seq<Link<T>>, drop: T -> bool) returns (removed: nat)
    requires Ring(head, nodes)
    modifies head, nodes
    ensures Ring(head, Kept(nodes, drop))
    ensures removed + |Kept(nodes, drop)| == |nodes|
  {
    assert Distinct(head, nodes);
    removed := 0;
    ghost var k := 0;
    NothingKept(nodes, drop);
    DuringNext(head, nodes, drop, 0);
    hide Ring, Kept, During;
    Links(head, nodes, -1);
    var item := head.next;
    var n := item;
    if item != head {
      Links(head, nodes, 0);
      n := item.next;
    }
    while item != head
      invariant k <= |nodes| && Ring(head, During(nodes, drop, k))
      invariant item == At(head, nodes, k) && (item != head ==> k < |nodes| && n == At(head, nodes, k + 1))
      invariant removed + |Kept(nodes[..k], drop)| == k
      decreases |nodes| - k
    {
      KeptNext(nodes, drop, k);
      var dropped := Judge(item, head, nodes, drop, k);
      if dropped {
        removed := removed + 1;
      }
      k := k + 1;
      item := n;
      if item != head {
        DuringNext(head, nodes, drop, k);
        n := item.next;
      }
    }
    AllKept(head, nodes, k, drop);
  }

  lemma DuringNext<T>(head: Link<T>, nodes: seq<Link<T>>, drop: T -> bool, k: nat)
    requires k <= |nodes| && Ring(head, During(nodes, drop, k))
    ensures k < |nodes| ==> nodes[k].next == At(head, nodes, k + 1)
  {
    if k < |nodes| {
      var now, p := During(nodes, drop, k), |Kept(nodes[..k], drop)|;
      assert now[p] == nodes[k];
      Links(head, now, p);
      assert k + 1 < |nodes| ==> now[p + 1] == nodes[k + 1];
    }
  }

  lemma NothingKept<T>(nodes: seq<Link<T>>, drop: T -> bool)
    ensures Kept(nodes[..0], drop) == [] && During(nodes, drop, 0) == nodes
  {
  }

  lemma AllKept<T>(head: Link<T>, nodes: seq<Link<T>>, k: nat, drop: T -> bool)
    requires Distinct(head, nodes) && k <= |nodes| && At(head, nodes, k) == head
    ensures k == |nodes| && During(nodes, drop, k) == Kept(nodes, drop) && nodes[..k] == nodes
  {
    assert forall j :: 0 <= j < |nodes| ==> nodes[j] != head;
    assert nodes[..k] == nodes;
  }
}
