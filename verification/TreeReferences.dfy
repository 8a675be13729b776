/** What becomes of ownership when a list is changed through a reference to it. */
module TreeReferences {
  import opened TreeShapes
  import opened TreeForest
  import opened TreeLinks
  import opened TreeItems

  /** A node that shares the children of a list, as create_reference makes it. */
  ghost predicate Shares(m: Memory, f: Shape, g: Ptr) {
    && HeldWhere(m, f) && !f.ref && Owned(f) <= Keys(m) && NULL !in m
    && IsItem(m, g) && g != f.p && Apart(g, f.kids) && m[g].item.ref && m[g].item.child == Head(f.kids)
  }

  /** What detaching child i through the reference needs of the cells around it. */
  lemma Detachable(m: Memory, f: Shape, g: Ptr, i: nat)
    requires Shares(m, f, g) && i < |f.kids|
    ensures var c := f.kids[i].p;
            && IsItem(m, f.p) && IsItem(m, c) && g != c
            && (m[c].item.prev != NULL ==> IsItem(m, m[c].item.prev) && m[c].item.prev != g)
            && (m[c].item.next != NULL ==> IsItem(m, m[c].item.next) && m[c].item.next != g)
            && (m[f.p].item.child == c <==> i == 0)
  {
    hide Held, HeldWhere, Owned, OwnedAll, NodeOwned;
    Around(m, f, i);
  }

  /** The list itself still begins with the detached child. */
  lemma StillFirst(m: Memory, f: Shape, g: Ptr)
    requires Shares(m, f, g) && f.kids != []
    requires IsItem(m, f.p) && IsItem(m, f.kids[0].p)
    requires m[f.kids[0].p].item.prev != NULL ==> IsItem(m, m[f.kids[0].p].item.prev)
    requires m[f.kids[0].p].item.next != NULL ==> IsItem(m, m[f.kids[0].p].item.next)
    ensures var m' := DetachedCells(m, g, f.kids[0].p);
            IsItem(m', f.p) && m'[f.p].item.child == f.kids[0].p && !m'[f.p].item.ref
  {
    hide Held, Owned, OwnedAll, NodeOwned;
    Detachable(m, f, g, 0);
    Around(m, f, 0);
  }

  /** A tree held at a list owns the list's first child. */
  lemma FirstOwned(m: Memory, y: Shape, prev: Ptr, next: Ptr, c: Ptr)
    requires Held(m, y, prev, next) && IsItem(m, y.p) && m[y.p].item.child == c && c != NULL && !m[y.p].item.ref
    ensures c in Owned(y)
  {
    HeldNeighbours(m, y, prev, next);
    assert y.kids != [] && y.kids[0].p == c;
    OwnedAt(y.kids, 0);
    OwnsItself(y.kids[0]);
  }

  /**
   Detaching through a reference does what detaching from the list itself does, except for the first
   child: that one is handed out while the list still begins with it, so that no two trees, one at the
   list and one at the child, can both own what they hold, and deleting both frees the child twice.
   */
  lemma DetachThroughReference(m: Memory, f: Shape, g: Ptr, i: nat)
    requires Shares(m, f, g) && i < |f.kids|
    ensures var c := f.kids[i].p;
            && IsItem(m, f.p) && IsItem(m, c)
            && (m[c].item.prev != NULL ==> IsItem(m, m[c].item.prev))
            && (m[c].item.next != NULL ==> IsItem(m, m[c].item.next))
    ensures i > 0 ==> DetachedCells(m, g, f.kids[i].p) == DetachedCells(m, f.p, f.kids[i].p)
    ensures i == 0 ==>
              var m', c := DetachedCells(m, g, f.kids[0].p), f.kids[0].p;
              forall y, z, prev, next | Held(m', y, prev, next) && y.p == f.p && Held(m', z, NULL, NULL) && z.p == c ::
                !(Owned(y) + Owned(z) <= Keys(m'))
  {
    hide Held, HeldWhere, Owned, OwnedAll, NodeOwned;
    Detachable(m, f, g, i);
    if i == 0 {
      var c := f.kids[0].p;
      var m' := DetachedCells(m, g, c);
      StillFirst(m, f, g);
      KidWhere(m, f, 0);
      hide DetachedCells;
      forall y, z, prev, next | Held(m', y, prev, next) && y.p == f.p && Held(m', z, NULL, NULL) && z.p == c
        ensures !(Owned(y) + Owned(z) <= Keys(m'))
      {
        FirstOwned(m', y, prev, next, c);
        OwnsItself(z);
        assert (Owned(y) + Owned(z))[c] >= 2;
        assert Keys(m')[c] <= 1;
      }
    } else {
      KidWhere(m, f, 0);
      TopsDifferIn(m, f, i);
    }
  }

  lemma TopsDifferIn(m: Memory, f: Shape, i: nat)
    requires HeldWhere(m, f) && Owned(f) <= Keys(m)
    requires 0 < i < |f.kids|
    ensures f.kids[0].p != f.kids[i].p
  {
    OwnApart(m, f);
    TopsDiffer(m, f.kids, 0, i);
  }

  /**
   create_reference makes such a node: after Store.CreateReference the new root r shares the children of
   the item, wherever that is, if the item is not a reference itself.
   */
  lemma ReferenceShares(m: Memory, roots: seq<Shape>, lost: multiset<Ptr>, r: nat, item: Ptr)
    requires Sound(m, roots, lost) && r < |roots| && Container(Without(roots, r), item)
    requires roots[r] == Reference(roots[r].p, FindAll(Without(roots, r), item).value)
    ensures Shares(m, FindAll(Without(roots, r), item).value, roots[r].p)
  {
    var f, x := FindAll(Without(roots, r), item).value, roots[r];
    WithoutRoot(m, roots, r);
    HeldNeighbours(m, x, NULL, NULL);
    JoinableIn(m, roots, lost, item, r);
    hide Held, HeldWhere, Owned, OwnedAll, NodeOwned, Rooted, FindAll;
    AddedApart(m, f, x);
  }

  /** No tree is held at the address. */
  ghost predicate NoneHeldAt(m: Memory, p: Ptr) {
    forall y: Shape, prev, next :: Held(m, y, prev, next) ==> y.p != p
  }

  /** A list that begins with a node that is gone is no tree. */
  lemma FirstGone(m: Memory, p: Ptr, c: Ptr)
    requires IsItem(m, p) && m[p].item.child == c && c != NULL && !m[p].item.ref && c !in m
    ensures NoneHeldAt(m, p)
  {
    forall y: Shape, prev, next | Held(m, y, prev, next)
      ensures y.p != p
    {
      if y.p == p {
        HeldNeighbours(m, y, prev, next);
        assert y.kids != [] && y.kids[0].p == c;
        HeldParts(m, y, prev, next);
        ChainWhere(m, y.kids, 0);
      }
    }
  }

  lemma FirstFreed(m: Memory, m1: Memory, m2: Memory, f: Shape, g: Ptr)
    requires Shares(m, f, g) && f.kids != [] && Freed(m1, m2, Owned(f.kids[0]))
    requires IsItem(m1, f.p) && m1[f.p].item.child == f.kids[0].p && !m1[f.p].item.ref && m1.Keys == m.Keys
    ensures NoneHeldAt(m2, f.p)
  {
    var c := f.kids[0];
    KidWhere(m, f, 0);
    OwnApart(m, f);
    OwnedAt(f.kids, 0);
    OwnsItself(c);
    hide Held, HeldWhere, Owned, OwnedAll, NodeOwned;
    assert f.p !in Owned(c) && c.p !in m2 && f.p in Keys(m1) - Owned(c);
    FirstGone(m2, f.p, c.p);
  }

  /**
   Deleting through a reference: any child but the first as from the list itself. When the first is
   deleted, the list still begins with what has been freed, and there is no tree at it any more.
   */
  lemma DeleteThroughReference(m: Memory, f: Shape, g: Ptr, i: nat)
    requires Shares(m, f, g) && i < |f.kids|
    ensures var c := f.kids[i].p;
            && IsItem(m, f.p) && IsItem(m, c)
            && (m[c].item.prev != NULL ==> IsItem(m, m[c].item.prev))
            && (m[c].item.next != NULL ==> IsItem(m, m[c].item.next))
    ensures i > 0 ==> DetachedCells(m, g, f.kids[i].p) == DetachedCells(m, f.p, f.kids[i].p)
    ensures i == 0 ==>
              forall m2 | Freed(DetachedCells(m, g, f.kids[0].p), m2, Owned(f.kids[0])) :: NoneHeldAt(m2, f.p)
  {
    DetachThroughReference(m, f, g, i);
    if i == 0 {
      StillFirst(m, f, g);
      KidWhere(m, f, 0);
      var m1 := DetachedCells(m, g, f.kids[0].p);
      assert m1.Keys == m.Keys;
      hide DetachedCells, Held, HeldWhere, Owned, OwnedAll, NodeOwned;
      forall m2 | Freed(m1, m2, Owned(f.kids[0]))
        ensures NoneHeldAt(m2, f.p)
      {
        FirstFreed(m, m1, m2, f, g);
      }
    }
  }

  /**
   Replacing through a reference: any child but the first as in the list itself. When the first is
   replaced, which frees it, only the reference learns of the new one, and there is no tree at the list
   any more.
   */
  lemma ReplaceThroughReference(m: Memory, f: Shape, g: Ptr, i: nat, y: Shape)
    requires Shares(m, f, g) && Replaceable(m, f, i, y) && y.p != g
    ensures var c := f.kids[i].p;
            && IsItem(m, f.p) && IsItem(m, c) && IsItem(m, y.p)
            && (m[c].item.prev != NULL ==> IsItem(m, m[c].item.prev))
            && (m[c].item.next != NULL ==> IsItem(m, m[c].item.next))
            && (m[c].item.prev == NULL ==> m[f.p].item.child == c)
    ensures i > 0 ==> ReplacedCells(m, g, f.kids[i].p, y.p) == ReplacedCells(m, f.p, f.kids[i].p, y.p)
    ensures i == 0 ==>
              forall m2 | Freed(ReplacedCells(m, g, f.kids[0].p, y.p), m2, Owned(f.kids[0])) :: NoneHeldAt(m2, f.p)
  {
    hide Held, HeldWhere, Owned, OwnedAll, NodeOwned, Freed, NoneHeldAt, ReplacedCells, ItemOf;
    ReplaceableThrough(m, f, g, i, y);
    if i == 0 {
      ReplacedFirst(m, f, g, y);
      var m1 := ReplacedCells(m, g, f.kids[0].p, y.p);
      forall m2 | Freed(m1, m2, Owned(f.kids[0]))
        ensures NoneHeldAt(m2, f.p)
      {
        FirstFreed(m, m1, m2, f, g);
      }
    } else {
      TopsDifferIn(m, f, i);
      ReplacedLater(m, f.p, g, f.kids[i].p, y.p);
    }
  }

  lemma ReplaceableThrough(m: Memory, f: Shape, g: Ptr, i: nat, y: Shape)
    requires Shares(m, f, g) && Replaceable(m, f, i, y)
    ensures var c := f.kids[i].p;
            && IsItem(m, f.p) && IsItem(m, c) && IsItem(m, y.p) && IsItem(m, g)
            && (m[c].item.prev != NULL ==> IsItem(m, m[c].item.prev))
            && (m[c].item.next != NULL ==> IsItem(m, m[c].item.next))
            && (m[c].item.prev == NULL <==> m[f.p].item.child == c)
            && m[f.p].item.child == m[g].item.child == f.kids[0].p
            && y.p != f.p
            && m[c].item.next != f.p
  {
    hide Held, HeldWhere, Owned, OwnedAll, NodeOwned;
    Detachable(m, f, g, i);
    Around(m, f, i);
    AroundNew(m, f, i, y);
    KidWhere(m, f, 0);
  }

  lemma ReplacedFirst(m: Memory, f: Shape, g: Ptr, y: Shape)
    requires Shares(m, f, g) && Replaceable(m, f, 0, y)
    ensures var c := f.kids[0].p;
            && IsItem(m, g) && IsItem(m, c) && IsItem(m, y.p)
            && (m[c].item.prev != NULL ==> IsItem(m, m[c].item.prev))
            && (m[c].item.next != NULL ==> IsItem(m, m[c].item.next))
            && (m[c].item.prev == NULL ==> m[g].item.child == c)
            && var m1 := ReplacedCells(m, g, c, y.p);
               m1.Keys == m.Keys && IsItem(m1, f.p) && m1[f.p].item.child == c && !m1[f.p].item.ref
  {
    hide Held, HeldWhere, Owned, OwnedAll, NodeOwned;
    ReplaceableThrough(m, f, g, 0, y);
    Around(m, f, 0);
  }

  lemma ReplacedLater(m: Memory, list: Ptr, g: Ptr, c: Ptr, item: Ptr)
    requires IsItem(m, list) && IsItem(m, g) && IsItem(m, c) && IsItem(m, item)
    requires m[c].item.prev != NULL ==> IsItem(m, m[c].item.prev)
    requires m[c].item.next != NULL ==> IsItem(m, m[c].item.next)
    requires m[c].item.prev != NULL && m[list].item.child == m[g].item.child != c
    ensures ReplacedCells(m, g, c, item) == ReplacedCells(m, list, c, item)
  {
  }

  /**
   Adding through a reference: behind the last child as to the list itself. When there is none, only the
   reference learns of the new item: the list stays empty, and the reference owns no children, so no
   tree at either owns what has been added.
   */
  lemma AddThroughReference(m: Memory, f: Shape, g: Ptr, y: Shape)
    requires Shares(m, f, g) && Joinable(m, f, y) && y.p != g
    ensures IsItem(m, f.p) && IsItem(m, y.p) && (f.kids != [] ==> IsItem(m, Last(f.kids)))
    ensures f.kids != [] ==> AddedCells(m, g, Last(f.kids), y.p) == AddedCells(m, f.p, Last(f.kids), y.p)
    ensures f.kids == [] ==>
              forall sh, prev, next | Held(AddedCells(m, g, NULL, y.p), sh, prev, next) && sh.p in {f.p, g} ::
                sh.kids == []
  {
    AddedApart(m, f, y);
    if f.kids == [] {
      FirstChild(m, f);
      var m1 := AddedCells(m, g, NULL, y.p);
      forall sh, prev, next | Held(m1, sh, prev, next) && sh.p in {f.p, g}
        ensures sh.kids == []
      {
        HeldNeighbours(m1, sh, prev, next);
        HeldParts(m1, sh, prev, next);
        ChainHead(m1, sh.kids);
      }
    }
  }
}
