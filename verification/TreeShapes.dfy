/**
 The items of src/cJSON.c in memory: nodes linked by next, prev and child, the strings that they own,
 and reference nodes, which share the string and the children of another item.

 What a node owns is described by a shape; memory holds a shape when its cells do.
 */
module TreeShapes {
  import opened JsonNumbers

  type Ptr = nat

  const NULL: Ptr := 0

  datatype Kind = KFalse | KTrue | KNull | KNumber | KString | KArray | KObject

  /** struct cJSON. */
  datatype Item = Item(next: Ptr, prev: Ptr, child: Ptr, kind: Kind, ref: bool, value: Ptr, number: Decimal, name: Ptr)

  /** What an allocation holds. */
  datatype Cell = ItemCell(item: Item) | TextCell(text: string)

  type Memory = map<Ptr, Cell>

  /** A string pointer with what it points to. */
  datatype Text = NoText | Text(p: Ptr, s: string)

  /** A node with the nodes below it that it owns: none below a reference, which only has a borrowed child pointer. */
  datatype Shape = Shape(p: Ptr, kind: Kind, ref: bool, number: Decimal, value: Text, name: Text,
                         kids: seq<Shape>, borrowed: Ptr)

  function Addr(t: Text): Ptr {
    match t case NoText => NULL case Text(p, _) => p
  }

  function Head(ss: seq<Shape>): Ptr {
    if ss == [] then NULL else ss[0].p
  }

  function Before(ss: seq<Shape>, i: nat): Ptr
    requires i < |ss|
  {
    if i == 0 then NULL else ss[i - 1].p
  }

  function After(ss: seq<Shape>, i: nat): Ptr
    requires i < |ss|
  {
    if i == |ss| - 1 then NULL else ss[i + 1].p
  }

  function ItemOf(sh: Shape, prev: Ptr, next: Ptr): Item {
    var child := if sh.ref then sh.borrowed else Head(sh.kids);
    Item(next, prev, child, sh.kind, sh.ref, Addr(sh.value), sh.number, Addr(sh.name))
  }

  predicate TextHeld(m: Memory, t: Text) {
    t.Text? ==> t.p != NULL && t.p in m && m[t.p] == TextCell(t.s)
  }

  /** The node's own cells: its item between the given neighbours, and its strings. */
  predicate NodeHeld(m: Memory, sh: Shape, prev: Ptr, next: Ptr) {
    && sh.p != NULL && sh.p in m && m[sh.p] == ItemCell(ItemOf(sh, prev, next))
    && TextHeld(m, sh.name) && (if sh.ref then sh.kids == [] else TextHeld(m, sh.value))
  }

  ghost predicate Held(m: Memory, sh: Shape, prev: Ptr, next: Ptr)
    decreases sh
  {
    NodeHeld(m, sh, prev, next) && Chain(m, sh.kids)
  }

  /** A list of siblings, linked both ways. */
  ghost predicate Chain(m: Memory, ss: seq<Shape>)
    decreases ss
  {
    forall i :: 0 <= i < |ss| ==> Held(m, ss[i], Before(ss, i), After(ss, i))
  }

  function TextOwned(t: Text): multiset<Ptr> {
    match t case NoText => multiset{} case Text(p, _) => multiset{p}
  }

  /** A reference does not own its string. */
  function ValueOwned(sh: Shape): multiset<Ptr> {
    if sh.ref then multiset{} else TextOwned(sh.value)
  }

  function NodeOwned(sh: Shape): multiset<Ptr> {
    multiset{sh.p} + TextOwned(sh.name) + ValueOwned(sh)
  }

  /** The allocations that deleting the node frees. */
  function Owned(sh: Shape): multiset<Ptr>
    decreases sh
  {
    NodeOwned(sh) + OwnedAll(sh.kids)
  }

  function OwnedAll(ss: seq<Shape>): multiset<Ptr>
    decreases ss
  {
    if ss == [] then multiset{} else Owned(ss[0]) + OwnedAll(ss[1..])
  }

  /** Memory that agrees on a set of allocations. */
  ghost predicate Same(m: Memory, m': Memory, ps: multiset<Ptr>) {
    forall p :: p in ps && p in m ==> p in m' && m'[p] == m[p]
  }

  function Without(ss: seq<Shape>, i: nat): seq<Shape>
    requires i < |ss|
  {
    ss[..i] + ss[i + 1..]
  }

  lemma {:induction false} OwnedAt(ss: seq<Shape>, i: nat)
    requires i < |ss|
    ensures OwnedAll(ss) == Owned(ss[i]) + OwnedAll(Without(ss, i))
  {
    hide Owned;
    var rest := Without(ss, i);
    if i == 0 {
      assert rest == ss[1..];
    } else {
      OwnedAt(ss[1..], i - 1);
      assert rest[0] == ss[0] && rest[1..] == Without(ss[1..], i - 1);
      assert OwnedAll(rest) == Owned(ss[0]) + OwnedAll(Without(ss[1..], i - 1));
    }
  }

  lemma {:induction false} OwnedConcat(a: seq<Shape>, b: seq<Shape>)
    ensures OwnedAll(a + b) == OwnedAll(a) + OwnedAll(b)
    decreases |a|
  {
    if a == [] {
      assert a + b == b;
    } else {
      assert (a + b)[1..] == a[1..] + b;
      OwnedConcat(a[1..], b);
    }
  }

  /** A shape stays held while the allocations that it owns stay as they are. */
  lemma {:induction false} HeldFrame(m: Memory, m': Memory, sh: Shape, prev: Ptr, next: Ptr)
    requires Held(m, sh, prev, next) && Same(m, m', Owned(sh))
    ensures Held(m', sh, prev, next)
    decreases sh, 1
  {
    hide NodeHeld, NodeOwned, Chain, OwnedAll;
    NodeFrame(m, m', sh, prev, next);
    ChainFrame(m, m', sh.kids);
  }

  lemma {:induction false} ChainFrame(m: Memory, m': Memory, ss: seq<Shape>)
    requires Chain(m, ss) && Same(m, m', OwnedAll(ss))
    ensures Chain(m', ss)
    decreases ss, 0
  {
    hide Held, Owned;
    forall i | 0 <= i < |ss|
      ensures Held(m', ss[i], Before(ss, i), After(ss, i))
    {
      OwnedAt(ss, i);
      assert Held(m, ss[i], Before(ss, i), After(ss, i));
      HeldFrame(m, m', ss[i], Before(ss, i), After(ss, i));
    }
  }

  function Keys(m: Memory): multiset<Ptr> {
    multiset(m.Keys)
  }

  /** Some allocations are gone, and the others are as they were. */
  ghost predicate Freed(m: Memory, m': Memory, ps: multiset<Ptr>) {
    ps <= Keys(m) && Keys(m') == Keys(m) - ps && forall p :: p in m' ==> p in m && m'[p] == m[p]
  }

  lemma FreedTwice(m0: Memory, m1: Memory, m2: Memory, a: multiset<Ptr>, b: multiset<Ptr>)
    requires Freed(m0, m1, a) && Freed(m1, m2, b)
    ensures Freed(m0, m2, a + b)
  {
  }

  /** What is not freed stays, as far as it is owned apart from what is. */
  lemma FreedSame(m: Memory, m': Memory, ps: multiset<Ptr>, others: multiset<Ptr>)
    requires Freed(m, m', ps) && ps + others <= Keys(m)
    ensures Same(m, m', others) && others <= Keys(m')
  {
    forall p | p in others
      ensures p in m' && m'[p] == m[p]
    {
      assert p in Keys(m');
    }
  }

  lemma NoneOwned()
    ensures OwnedAll([]) == multiset{}
  {
  }

  lemma NothingFreed(m: Memory)
    ensures Freed(m, m, multiset{})
  {
  }

  lemma ChainHead(m: Memory, ss: seq<Shape>)
    requires Chain(m, ss)
    ensures Head(ss) == NULL <==> ss == []
  {
    if ss != [] {
      assert Held(m, ss[0], Before(ss, 0), After(ss, 0));
    }
  }

  lemma ChainLinked(m: Memory, ss: seq<Shape>)
    ensures Chain(m, ss) <==> LinkedFrom(m, ss, 0)
  {
    hide Held;
  }

  lemma LinkedAt(m: Memory, ss: seq<Shape>, k: nat)
    requires LinkedFrom(m, ss, k)
    ensures k < |ss| ==> Held(m, ss[k], Before(ss, k), After(ss, k)) && ss[k].p != NULL
  {
  }

  lemma NodeFrame(m: Memory, m': Memory, sh: Shape, prev: Ptr, next: Ptr)
    requires NodeHeld(m, sh, prev, next) && Same(m, m', NodeOwned(sh))
    ensures NodeHeld(m', sh, prev, next)
  {
    assert sh.p in NodeOwned(sh);
    assert sh.name.Text? ==> sh.name.p in NodeOwned(sh);
    assert !sh.ref && sh.value.Text? ==> sh.value.p in NodeOwned(sh);
  }

  /** The siblings from the k-th on. */
  ghost predicate LinkedFrom(m: Memory, ss: seq<Shape>, k: nat) {
    forall i :: k <= i < |ss| ==> Held(m, ss[i], Before(ss, i), After(ss, i))
  }

  lemma HeadOwned(ss: seq<Shape>, k: nat)
    requires k < |ss|
    ensures OwnedAll(ss[k..]) == Owned(ss[k]) + OwnedAll(ss[k + 1..])
    ensures OwnedAll(ss[..k + 1]) == OwnedAll(ss[..k]) + Owned(ss[k])
    ensures Head(ss[k + 1..]) == After(ss, k)
  {
    assert ss[k..][1..] == ss[k + 1..];
    assert ss[..k + 1] == ss[..k] + [ss[k]];
    assert [ss[k]][1..] == [];
    OwnedConcat(ss[..k], [ss[k]]);
  }

  lemma LinkedOn(m: Memory, m': Memory, ss: seq<Shape>, k: nat)
    requires k < |ss| && LinkedFrom(m, ss, k) && Same(m, m', OwnedAll(ss[k + 1..]))
    ensures LinkedFrom(m', ss, k + 1)
  {
    hide Held, Owned;
    var rest := ss[k + 1..];
    forall i | k + 1 <= i < |ss|
      ensures Held(m', ss[i], Before(ss, i), After(ss, i))
    {
      OwnedAt(rest, i - k - 1);
      assert Held(m, ss[i], Before(ss, i), After(ss, i));
      HeldFrame(m, m', ss[i], Before(ss, i), After(ss, i));
    }
  }

  lemma NothingLeft(m: Memory, ss: seq<Shape>, k: nat)
    requires k <= |ss| && LinkedFrom(m, ss, k) && Head(ss[k..]) == NULL
    ensures k == |ss| && ss[..k] == ss
  {
    LinkedAt(m, ss, k);
  }
}
