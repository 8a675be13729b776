/**
 The timer list of src/eloop/eloop.c on the pointers of src/eloop/list.h: the loops of
 eloop_register_timeout and eloop_cancel_timeout do to the linked list what module Timers says of
 the sequence of timers.
 */
module TimerLists {
  import Ring
  import opened Timers

  type Node = Ring.Link<Timer>

  /** The timers of the elements. */
  ghost function Data(nodes: seq<Node>): (l: seq<Timer>)
    ensures |l| == |nodes| && forall i :: 0 <= i < |nodes| ==> l[i] == nodes[i].data
  {
    seq(|nodes|, i requires 0 <= i < |nodes| => nodes[i].data)
  }

  /** The search of eloop_register_timeout: the first timer that is later, or else the head. */
  method FindLater(head: Node, t: Timer, ghost nodes: seq<Node>) returns (tmp: Node, ghost k: nat)
    requires Ring.Ring(head, nodes)
    ensures k <= |nodes| && tmp == Ring.At(head, nodes, k) && (tmp == head <==> k == |nodes|)
    ensures Insert(Data(nodes), t) == Data(nodes)[..k] + [t] + Data(nodes)[k..]
  {
    k := 0;
    Ring.Links(head, nodes, -1);
    tmp := head.next;
    while tmp != head && !Before(t.time, tmp.data.time)
      invariant k <= |nodes| && tmp == Ring.At(head, nodes, k)
      invariant forall j :: 0 <= j < k ==> !Before(t.time, nodes[j].data.time)
      decreases |nodes| - k
    {
      Ring.NotHead(head, nodes, k);
      Ring.Links(head, nodes, k);
      tmp := tmp.next;
      k := k + 1;
    }
    Ring.NotHead(head, nodes, k);
    InsertAt(Data(nodes), t, k);
  }

  /** The end of eloop_register_timeout: dl_list_add before a later timer, or dl_list_add_tail. */
  method RegisterTimer(head: Node, item: Node, ghost nodes: seq<Node>) returns (ghost nodes': seq<Node>)
    requires Ring.Ring(head, nodes) && item != head && item !in nodes
    modifies item, head, nodes
    ensures Ring.Ring(head, nodes') && Data(nodes') == Insert(Data(nodes), item.data)
    ensures multiset(nodes') == multiset(nodes) + multiset{item}
  {
    var tmp, k := FindLater(head, item.data, nodes);
    DataInserted(nodes, item, k);
    hide Ring.Ring, Insert;
    InsertBefore(head, tmp, item, nodes, k);
    nodes' := nodes[..k] + [item] + nodes[k..];
  }

  lemma DataInserted(nodes: seq<Node>, item: Node, k: nat)
    requires k <= |nodes|
    ensures Data(nodes[..k] + [item] + nodes[k..]) == Data(nodes)[..k] + [item.data] + Data(nodes)[k..]
    ensures multiset(nodes[..k] + [item] + nodes[k..]) == multiset(nodes) + multiset{item}
  {
    assert nodes == nodes[..k] + nodes[k..];
  }

  method InsertBefore(head: Node, tmp: Node, item: Node, ghost nodes: seq<Node>, ghost k: nat)
    requires Ring.Ring(head, nodes) && item != head && item !in nodes
    requires k <= |nodes| && tmp == Ring.At(head, nodes, k) && (tmp == head <==> k == |nodes|)
    modifies item, head, nodes
    ensures Ring.Ring(head, nodes[..k] + [item] + nodes[k..])
  {
    ghost var before: int := k - 1;
    Ring.BackLinks(head, nodes, k);
    Ring.Links(head, nodes, before);
    Among(head, nodes, k);
    hide Ring.Ring, Ring.At;
    if tmp != head {
      var list := tmp.prev;
      Ring.Insert(item, list, list.next, head, nodes, k);
    } else {
      Ring.AddTail(item, head, nodes);
      assert nodes[..k] + [item] + nodes[k..] == nodes + [item];
    }
  }

  lemma Among(head: Node, nodes: seq<Node>, k: nat)
    requires k <= |nodes|
    ensures Ring.At(head, nodes, k) in nodes + [head] && Ring.At(head, nodes, k - 1) in nodes + [head]
  {
  }

  /** eloop_cancel_timeout. */
  method CancelTimers(head: Node, handler: Ptr, eloopData: Ptr, userData: Ptr, ghost nodes: seq<Node>)
    returns (removed: nat, ghost nodes': seq<Node>)
    requires Ring.Ring(head, nodes)
    modifies head, nodes
    ensures Ring.Ring(head, nodes')
    ensures Data(nodes') == Without(Data(nodes), Cancelling(handler, eloopData, userData))
    ensures removed == |nodes| - |nodes'|
  {
    var drop := Cancelling(handler, eloopData, userData);
    removed := Ring.RemoveMatching(head, nodes, drop);
    nodes' := Ring.Kept(nodes, drop);
    DataKept(nodes, drop);
  }

  lemma {:induction false} DataKept(nodes: seq<Node>, drop: Timer -> bool)
    ensures Data(Ring.Kept(nodes, drop)) == Without(Data(nodes), drop)
  {
    if nodes == [] {
      assert Data(nodes) == [];
    } else {
      var n := |nodes| - 1;
      var t := nodes[n].data;
      DataKept(nodes[..n], drop);
      WithoutConcat(Data(nodes[..n]), [t], drop);
      assert Data(nodes) == Data(nodes[..n]) + [t];
      assert [t][1..] == [];
      assert Data(Ring.Kept(nodes, drop)) == Data(Ring.Kept(nodes[..n], drop)) + if drop(t) then [] else [t];
    }
  }

  /** The first timer, where eloop_run looks, and what eloop_remove_timeout leaves. */
  method RemoveFirst(head: Node, ghost nodes: seq<Node>) returns (first: Ring.Link?<Timer>)
    requires Ring.Ring(head, nodes)
    modifies head, nodes
    ensures first == null <==> nodes == []
    ensures first == null ==> Ring.Ring(head, [])
    ensures first != null ==> first.data == Data(nodes)[0] && Ring.Ring(head, nodes[1..])
    ensures first != null ==> Data(nodes[1..]) == Data(nodes)[1..]
  {
    first := Ring.Get(head, nodes);
  }
}
