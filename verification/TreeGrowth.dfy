/** Trees under construction: what the parser does to the node that it fills in. */
module TreeGrowth {
  import opened JsonNumbers
  import opened TreeShapes
  import opened TreeForest
  import opened TreeLinks
  import opened TreeItems
  import opened TreeCopy

  /** A tree somewhere in memory, without references, that owns all its cells. */
  ghost predicate Growing(m: Memory, f: Shape) {
    HeldWhere(m, f) && Unshared(f) && Owned(f) <= Keys(m) && NULL !in m
  }

  /** The tree has become another with the same root, between the same neighbours; nothing else has changed. */
  ghost predicate Regrown(m: Memory, m': Memory, f: Shape, f': Shape) {
    && Growing(m, f) && Growing(m', f') && f'.p == f.p
    && m'[f.p].item.prev == m[f.p].item.prev && m'[f.p].item.next == m[f.p].item.next
    && Keys(m') + Owned(f) == Keys(m) + Owned(f')
    && forall q :: q in m && q !in Owned(f) ==> q in m' && m'[q] == m[q]
  }

  lemma RegrownNot(m: Memory, f: Shape)
    requires Growing(m, f)
    ensures Regrown(m, m, f, f)
  {
  }

  lemma RegrownTwice(m: Memory, m1: Memory, m2: Memory, f: Shape, f1: Shape, f2: Shape)
    requires Regrown(m, m1, f, f1) && Regrown(m1, m2, f1, f2)
    ensures Regrown(m, m2, f, f2)
  {
    hide Growing, Owned, Keys;
    BagChain(Keys(m), Keys(m1), Keys(m2), Owned(f), Owned(f1), Owned(f2));
    forall q | q in m && q !in Owned(f)
      ensures q !in Owned(f1)
    {
      StillNot(m, m1, Owned(f), Owned(f1), q);
    }
  }

  lemma StillNot(m: Memory, m1: Memory, ps: multiset<Ptr>, qs: multiset<Ptr>, q: Ptr)
    requires Keys(m1) + ps == Keys(m) + qs && q in m && q !in ps
    ensures q !in qs
  {
    OnceOwned(m1, Keys(m1), q);
    assert (Keys(m1) + ps)[q] == (Keys(m) + qs)[q];
    assert q in Keys(m);
  }

  lemma BagChain(k: multiset<Ptr>, k1: multiset<Ptr>, k2: multiset<Ptr>, f: multiset<Ptr>,
                 f1: multiset<Ptr>, f2: multiset<Ptr>)
    requires k1 + f == k + f1 && k2 + f1 == k1 + f2
    ensures k2 + f == k + f2
  {
    assert (k2 + f) + f1 == (k2 + f1) + f == (k1 + f2) + f == (k1 + f) + f2 == (k + f1) + f2 == (k + f2) + f1;
    BagCancel(k2 + f, k + f2, f1);
  }

  lemma BagCancel(a: multiset<Ptr>, b: multiset<Ptr>, c: multiset<Ptr>)
    requires a + c == b + c
    ensures a == b
  {
    assert a == a + c - c;
    assert b == b + c - c;
  }

  /** The node's own cell changes, but no pointer in it. */
  lemma Retyped(m: Memory, f: Shape, kind: Kind, number: Decimal)
    requires Growing(m, f)
    ensures IsItem(m, f.p)
    ensures Regrown(m, m[f.p := ItemCell(m[f.p].item.(kind := kind, number := number))],
                    f, f.(kind := kind, number := number))
  {
    hide OwnedAll, Chain, NodeOwned;
    var m', f' := m[f.p := ItemCell(m[f.p].item.(kind := kind, number := number))], f.(kind := kind, number := number);
    OwnsItself(f);
    OnceOwned(m, Owned(f), f.p);
    assert NodeOwned(f') == NodeOwned(f) by {
      KindUnowned(f, kind, number);
    }
    assert Owned(f') == Owned(f);
    assert Keys(m') == Keys(m);
    var prev, next := m[f.p].item.prev, m[f.p].item.next;
    var rest := Owned(f) - multiset{f.p};
    assert Same(m, m', rest);
    TopAlone(f);
    SameLess(m, m', OwnedAll(f.kids), rest);
    ChainFrame(m, m', f.kids);
    SameLess(m, m', NodeOwned(f) - multiset{f.p}, rest);
    TextsKept(m, m', f);
  }

  lemma KindUnowned(f: Shape, kind: Kind, number: Decimal)
    ensures NodeOwned(f.(kind := kind, number := number)) == NodeOwned(f)
  {
  }

  /** A leaf is given a string. */
  lemma TextGiven(m: Memory, f: Shape, q: Ptr, s: string, isName: bool)
    requires Growing(m, f) && f.kids == [] && q != NULL && q !in m
    requires if isName then f.name == NoText else f.value == NoText
    ensures IsItem(m, f.p) && Regrown(m, TextedCells(m, f.p, q, s, isName), f, Texted(f, q, s, isName))
  {
    var f', m' := Texted(f, q, s, isName), TextedCells(m, f.p, q, s, isName);
    LeafTextOwned(f, q, s, isName);
    LeafTextKeys(m, f.p, q, s, isName);
    OwnsItself(f);
    TextedWhere(m, f, q, s, isName);
    hide Owned, HeldWhere, TextedCells;
    assert Keys(m') + Owned(f) == Keys(m) + Owned(f');
  }

  lemma TextedWhere(m: Memory, f: Shape, q: Ptr, s: string, isName: bool)
    requires HeldWhere(m, f) && !f.ref && f.kids == [] && Owned(f) <= Keys(m) && q != NULL && q !in m
    requires if isName then f.name == NoText else f.value == NoText
    ensures var m' := TextedCells(m, f.p, q, s, isName);
            && HeldWhere(m', Texted(f, q, s, isName))
            && m'[f.p].item.prev == m[f.p].item.prev && m'[f.p].item.next == m[f.p].item.next
  {
    LeafApart(m, f);
  }

  /** A new item is linked behind the last child. */
  lemma KidAppended(m: Memory, f: Shape, q: Ptr)
    requires Growing(m, f) && q != NULL && q !in m
    ensures var m1, x := m[q := ItemCell(NEW)], Leaf(q, KFalse, ZERO, NoText);
            && IsItem(m1, f.p) && IsItem(m1, q) && (f.kids != [] ==> IsItem(m1, Last(f.kids)))
            && Regrown(m, AddedCells(m1, f.p, Last(f.kids), q), f, f.(kids := f.kids + [x]))
            && Growing(AddedCells(m1, f.p, Last(f.kids), q), x)
  {
    hide Held, HeldWhere, OwnedAll, NodeOwned, Owned, Relinked, AddedCells, Unshared, Keys;
    var m1, x := m[q := ItemCell(NEW)], Leaf(q, KFalse, ZERO, NoText);
    LeafJoins(m, f, q);
    AddedRelinks(m1, f, x);
    var m2 := AddedCells(m1, f.p, Last(f.kids), q);
    KidAppendedHeld(m1, m2, f, x);
    LeafOwned(q);
    UnsharedJoin(f, x);
    OwnedJoined(f, x);
    RelinkedElsewhere(m1, m2, f, x);
    NewKeys(m, m2, q);
    SameLinks(m1, m2, f, f.kids + [x]);
    assert multiset{q} <= Keys(m2) && Owned(f) + multiset{q} <= Keys(m2);
  }

  lemma NewKeys(m: Memory, m2: Memory, q: Ptr)
    requires q !in m && m2.Keys == m[q := ItemCell(NEW)].Keys
    ensures Keys(m2) == Keys(m) + multiset{q}
  {
  }

  lemma LeafOwned(q: Ptr)
    ensures Owned(Leaf(q, KFalse, ZERO, NoText)) == multiset{q} && Unshared(Leaf(q, KFalse, ZERO, NoText))
  {
    NoneOwned();
  }

  lemma OwnedJoined(f: Shape, x: Shape)
    ensures Owned(f.(kids := f.kids + [x])) == Owned(f) + Owned(x)
  {
    hide OwnedAll, NodeOwned;
    OwnedConcat(f.kids, [x]);
    OwnedOne(x);
    NodeOwnedOf(f, f.kids + [x]);
  }

  /** The new leaf is a root that can join. */
  lemma LeafJoins(m: Memory, f: Shape, q: Ptr)
    requires Growing(m, f) && q != NULL && q !in m
    ensures var m1, x := m[q := ItemCell(NEW)], Leaf(q, KFalse, ZERO, NoText);
            Joinable(m1, f, x) && NULL !in m1 && m1[f.p] == m[f.p]
  {
    var m1, x := m[q := ItemCell(NEW)], Leaf(q, KFalse, ZERO, NoText);
    LeafOwned(q);
    LeafHeld(m1, x);
    OwnsItself(f);
    hide Owned, OwnedAll;
    OnceOwned(m, Owned(f), f.p);
    assert Keys(m1) == Keys(m) + multiset{q};
    assert Same(m, m1, Owned(f));
    HeldFrame(m, m1, f, m[f.p].item.prev, m[f.p].item.next);
  }

  lemma KidAppendedHeld(m1: Memory, m2: Memory, f: Shape, x: Shape)
    requires Relinked(m1, m2, f, f.kids + [x], [])
    ensures HeldWhere(m2, f.(kids := f.kids + [x])) && HeldWhere(m2, x) && m2.Keys == m1.Keys
  {
    RelinkedHeld(m1, m2, f, f.kids + [x], []);
    KidWhere(m2, f.(kids := f.kids + [x]), |f.kids|);
  }

  lemma SameLinks(m1: Memory, m2: Memory, f: Shape, kids: seq<Shape>)
    requires Relinked(m1, m2, f, kids, [])
    ensures f.p in m1 && f.p in m2 && m1[f.p].ItemCell? && m2[f.p].ItemCell?
    ensures m2[f.p].item.prev == m1[f.p].item.prev && m2[f.p].item.next == m1[f.p].item.next
  {
  }

  /** Linking touches nothing that neither the container nor the new child owns. */
  lemma RelinkedElsewhere(m1: Memory, m2: Memory, f: Shape, x: Shape)
    requires Relinked(m1, m2, f, f.kids + [x], [])
    ensures forall p :: p in m1 && p !in Owned(f) && p !in Owned(x) ==> p in m2 && m2[p] == m1[p]
    ensures m2.Keys == m1.Keys
  {
    hide Owned, OwnedAll, NodeOwned, Linked, AllWhere;
    TopsOwned(f.kids + [x]);
    OwnsItself(f);
    OwnedParts(f);
    OwnedConcat(f.kids, [x]);
    OwnedOne(x);
    hide Tops;
    var changed := multiset{f.p} + Tops(f.kids + [x]) + Tops([]);
    NoTops();
    forall p | p in changed
      ensures p in Owned(f) || p in Owned(x)
    {
      assert p in NodeOwned(f) + OwnedAll(f.kids) + Owned(x);
    }
  }

  lemma NoTops()
    ensures Tops([]) == multiset{}
  {
  }

  /** The last child grows, and the tree with it. */
  lemma LastKidRegrown(m: Memory, m': Memory, f: Shape, ks: seq<Shape>, x: Shape, x': Shape)
    requires Growing(m, f) && f.kids == ks + [x] && Regrown(m, m', x, x')
    ensures Regrown(m, m', f, f.(kids := ks + [x']))
  {
    hide Held, HeldWhere, OwnedAll, NodeOwned, Owned, Unshared, Keys, Chain;
    var f' := f.(kids := ks + [x']);
    KidParts(f, ks, x);
    KidParts(f', ks, x');
    NodeOwnedOf(f, ks + [x']);
    var others := NodeOwned(f) + OwnedAll(ks);
    assert Owned(f) == others + Owned(x) && Owned(f') == others + Owned(x');
    assert Same(m, m', others) by {
      OthersSame(m, m', others, x);
    }
    SameLess(m, m', NodeOwned(f), others);
    SameLess(m, m', OwnedAll(ks), others);
    OwnsItself(f);
    WhereNotNull(m, f);
    LastKidHeld(m, m', f, ks, x, x');
    LastKidUnshared(f, ks, x, x');
    GrownOwned(Keys(m), Keys(m'), others, Owned(x), Owned(x'));
    assert f.p in others;
  }

  lemma GrownOwned(k: multiset<Ptr>, k': multiset<Ptr>, others: multiset<Ptr>, x: multiset<Ptr>, x': multiset<Ptr>)
    requires others + x <= k && k' + x == k + x'
    ensures others + x' <= k' && k' + (others + x) == k + (others + x')
  {
    assert k - x + x == k;
    assert others <= k - x;
    BagCancel(k', k - x + x', x);
  }

  lemma OthersSame(m: Memory, m': Memory, others: multiset<Ptr>, x: Shape)
    requires others + Owned(x) <= Keys(m)
    requires forall q :: q in m && q !in Owned(x) ==> q in m' && m'[q] == m[q]
    ensures Same(m, m', others)
  {
    hide Owned;
    forall q | q in others
      ensures q !in Owned(x)
    {
      OnceOwned(m, others + Owned(x), q);
    }
  }

  lemma KidParts(f: Shape, ks: seq<Shape>, x: Shape)
    requires f.kids == ks + [x]
    ensures Owned(f) == NodeOwned(f) + OwnedAll(ks) + Owned(x)
  {
    hide NodeOwned, OwnedAll;
    OwnedParts(f);
    OwnedConcat(ks, [x]);
    OwnedOne(x);
  }

  lemma {:induction false} UnsharedConcat(ks: seq<Shape>, x: Shape)
    ensures UnsharedAll(ks + [x]) <==> UnsharedAll(ks) && Unshared(x)
  {
    hide Unshared;
    if ks != [] {
      UnsharedConcat(ks[1..], x);
      assert (ks + [x])[1..] == ks[1..] + [x];
    }
  }

  lemma LastKidUnshared(f: Shape, ks: seq<Shape>, x: Shape, x': Shape)
    requires Unshared(f) && f.kids == ks + [x] && Unshared(x')
    ensures Unshared(f.(kids := ks + [x']))
  {
    UnsharedConcat(ks, x);
    UnsharedConcat(ks, x');
  }

  lemma LastKidHeld(m: Memory, m': Memory, f: Shape, ks: seq<Shape>, x: Shape, x': Shape)
    requires HeldWhere(m, f) && f.kids == ks + [x] && Regrown(m, m', x, x')
    requires Same(m, m', NodeOwned(f)) && Same(m, m', OwnedAll(ks)) && f.p in m' && m'[f.p] == m[f.p]
    ensures HeldWhere(m', f.(kids := ks + [x']))
  {
    hide OwnedAll, NodeOwned, Owned, Growing, ItemOf, NodeHeld;
    var n, kids', prev, next := |ks|, ks + [x'], m[f.p].item.prev, m[f.p].item.next;
    HeldParts(m, f, prev, next);
    NodeFrame(m, m', f, prev, next);
    assert Chain(m', kids') by {
      ChainLastKid(m, m', f.kids, ks, x, x');
    }
    NodeHeldOf(m', f, kids', prev, next);
    HeldParts(m', f.(kids := kids'), prev, next);
  }

  lemma ChainLastKid(m: Memory, m': Memory, kids: seq<Shape>, ks: seq<Shape>, x: Shape, x': Shape)
    requires Chain(m, kids) && kids == ks + [x] && Regrown(m, m', x, x') && Same(m, m', OwnedAll(ks))
    ensures Chain(m', ks + [x'])
  {
    hide OwnedAll, Owned, Held;
    var kids' := ks + [x'];
    forall i | 0 <= i < |kids'|
      ensures Held(m', kids'[i], Before(kids', i), After(kids', i))
    {
      ChainWhere(m, kids, i);
      if i < |ks| {
        OwnedAt(ks, i);
        SameLess(m, m', Owned(ks[i]), OwnedAll(ks));
        assert Held(m, kids[i], Before(kids, i), After(kids, i));
        HeldFrame(m, m', ks[i], Before(kids, i), After(kids, i));
      } else {
        assert Before(kids', i) == Before(kids, i) && After(kids', i) == After(kids, i) == NULL;
      }
    }
  }
}
