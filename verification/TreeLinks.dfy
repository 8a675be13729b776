/** What adding, detaching and replacing write to the items, and that it links the children as intended. */
module TreeLinks {
  import opened TreeShapes
  import opened TreeForest

  function WithNext(m: Memory, p: Ptr, next: Ptr): Memory
    requires p in m && m[p].ItemCell?
  {
    m[p := ItemCell(m[p].item.(next := next))]
  }

  function WithPrev(m: Memory, p: Ptr, prev: Ptr): Memory
    requires p in m && m[p].ItemCell?
  {
    m[p := ItemCell(m[p].item.(prev := prev))]
  }

  function WithChild(m: Memory, p: Ptr, child: Ptr): Memory
    requires p in m && m[p].ItemCell?
  {
    m[p := ItemCell(m[p].item.(child := child))]
  }

  predicate IsItem(m: Memory, p: Ptr) {
    p in m && m[p].ItemCell?
  }

  /** The container's child pointer or the last child is linked to the new child. */
  function AddedCells(m: Memory, list: Ptr, last: Ptr, item: Ptr): Memory
    requires IsItem(m, list) && IsItem(m, item) && (last != NULL ==> IsItem(m, last))
  {
    if last == NULL then WithChild(m, list, item) else WithPrev(WithNext(m, last, item), item, last)
  }

  /** The writes of cJSON_DetachItemFromArray for child c. */
  function DetachedCells(m: Memory, list: Ptr, c: Ptr): Memory
    requires IsItem(m, list) && IsItem(m, c)
    requires m[c].item.prev != NULL ==> IsItem(m, m[c].item.prev)
    requires m[c].item.next != NULL ==> IsItem(m, m[c].item.next)
  {
    var prev, next := m[c].item.prev, m[c].item.next;
    var m1 := if prev != NULL then WithNext(m, prev, next) else m;
    var m2 := if next != NULL then WithPrev(m1, next, prev) else m1;
    var m3 := if c == m2[list].item.child then WithChild(m2, list, m2[c].item.next) else m2;
    WithNext(WithPrev(m3, c, NULL), c, NULL)
  }

  /** The writes of cJSON_ReplaceItemInArray for child c, before it is deleted. */
  function ReplacedCells(m: Memory, list: Ptr, c: Ptr, item: Ptr): Memory
    requires IsItem(m, list) && IsItem(m, c) && IsItem(m, item)
    requires m[c].item.prev != NULL ==> IsItem(m, m[c].item.prev)
    requires m[c].item.prev == NULL ==> m[list].item.child == c
    requires m[c].item.next != NULL ==> IsItem(m, m[c].item.next)
  {
    var prev, next := m[c].item.prev, m[c].item.next;
    var m1 := WithPrev(WithNext(m, item, next), item, prev);
    var m2 := if next != NULL then WithPrev(m1, next, item) else m1;
    var m3 := if m[list].item.child == c then WithChild(m2, list, item) else WithNext(m2, prev, item);
    WithNext(WithPrev(m3, c, NULL), c, NULL)
  }

  lemma {:induction false} TopIn(ss: seq<Shape>, j: nat)
    requires j < |ss|
    ensures ss[j].p in Tops(ss)
  {
    if j > 0 {
      TopIn(ss[1..], j - 1);
    }
  }

  function Last(ss: seq<Shape>): Ptr {
    if ss == [] then NULL else ss[|ss| - 1].p
  }

  /** The container and a detached tree that is not part of it. */
  ghost predicate Joinable(m: Memory, f: Shape, x: Shape) {
    HeldWhere(m, f) && !f.ref && Held(m, x, NULL, NULL) && Owned(f) + Owned(x) <= Keys(m)
  }

  lemma KidsWhere(m: Memory, f: Shape)
    requires HeldWhere(m, f)
    ensures AllWhere(m, f.kids) && Linked(m, f.kids) && m[f.p].item == ItemOf(f, m[f.p].item.prev, m[f.p].item.next)
  {
    forall j | 0 <= j < |f.kids|
      ensures HeldWhere(m, f.kids[j]) && f.kids[j].p in m
      ensures m[f.kids[j].p] == ItemCell(ItemOf(f.kids[j], Before(f.kids, j), After(f.kids, j)))
    {
      ChainWhere(m, f.kids, j);
    }
  }

  lemma JoinedOwned(m: Memory, f: Shape, x: Shape)
    requires Joinable(m, f, x)
    ensures NodeOwned(f) + OwnedAll(f.kids + [x]) <= Keys(m) && OwnedAll(f.kids + [x]) == OwnedAll(f.kids) + Owned(x)
    ensures f.p !in OwnedAll(f.kids + [x]) && f.p in m && m[f.p].ItemCell? && x.p in m && m[x.p].ItemCell?
    ensures HeldWhere(m, x)
  {
    hide Held, Owned, OwnedAll, NodeOwned, HeldWhere;
    OwnedConcat(f.kids, [x]);
    OwnedOne(x);
    OwnedParts(f);
    OwnsItself(f);
    OnceOwned(m, NodeOwned(f) + OwnedAll(f.kids + [x]), f.p);
    WhereNotNull(m, f);
    RootWhere(m, x);
  }

  lemma RootWhere(m: Memory, x: Shape)
    requires Held(m, x, NULL, NULL)
    ensures HeldWhere(m, x) && IsItem(m, x.p)
  {
  }

  lemma AddedCellsAre(m: Memory, list: Ptr, last: Ptr, item: Ptr)
    requires IsItem(m, list) && IsItem(m, item) && (last != NULL ==> IsItem(m, last))
    requires list != item && list != last && last != item
    ensures var m' := AddedCells(m, list, last, item);
            && m'.Keys == m.Keys
            && m'[list] == ItemCell(if last == NULL then m[list].item.(child := item) else m[list].item)
            && (last != NULL ==> m'[last] == ItemCell(m[last].item.(next := item)))
            && m'[item] == ItemCell(if last == NULL then m[item].item else m[item].item.(prev := last))
            && forall p :: p in m && p != list && p != last && p != item ==> m'[p] == m[p]
  {
  }

  /** Nodes that are owned once are different nodes. */
  ghost predicate Apart(p: Ptr, ss: seq<Shape>) {
    forall j :: 0 <= j < |ss| ==> ss[j].p != p
  }

  lemma NotAmong(m: Memory, ss: seq<Shape>, p: Ptr)
    requires p !in OwnedAll(ss)
    ensures Apart(p, ss)
  {
    forall j | 0 <= j < |ss|
      ensures ss[j].p != p
    {
      OwnedAt(ss, j);
      OwnsItself(ss[j]);
    }
  }

  lemma LastApart(m: Memory, ss: seq<Shape>)
    requires OwnedAll(ss) <= Keys(m) && ss != []
    ensures Apart(Last(ss), ss[..|ss| - 1])
  {
    forall j | 0 <= j < |ss| - 1
      ensures ss[j].p != Last(ss)
    {
      TopsDiffer(m, ss, j, |ss| - 1);
    }
  }

  /** The parties to an addition are different nodes. */
  lemma AddedApart(m: Memory, f: Shape, x: Shape)
    requires Joinable(m, f, x)
    ensures IsItem(m, f.p) && IsItem(m, x.p) && (f.kids != [] ==> IsItem(m, Last(f.kids)) && Last(f.kids) != NULL)
    ensures f.p != x.p && f.p != Last(f.kids) && Last(f.kids) != x.p
    ensures Apart(f.p, f.kids) && Apart(x.p, f.kids) && (f.kids != [] ==> Apart(Last(f.kids), f.kids[..|f.kids| - 1]))
  {
    hide Held, Owned, NodeOwned, OwnedAll, HeldWhere;
    JoinedOwned(m, f, x);
    WhereNotNull(m, f);
    WhereNotNull(m, x);
    JoinedApart(m, f, x);
    if f.kids != [] {
      KidWhere(m, f, |f.kids| - 1);
      LastApart(m, f.kids);
    }
  }

  lemma JoinedApart(m: Memory, f: Shape, x: Shape)
    requires OwnedAll(f.kids + [x]) <= Keys(m) && f.p !in OwnedAll(f.kids + [x])
    ensures f.p != x.p && Apart(f.p, f.kids) && Apart(x.p, f.kids)
  {
    var kids, n := f.kids + [x], |f.kids|;
    NotAmong(m, kids, f.p);
    LastApart(m, kids);
    assert kids[n] == x && kids[..n] == f.kids;
    assert forall j :: 0 <= j < n ==> f.kids[j] == kids[j];
  }

  lemma WhereNotNull(m: Memory, f: Shape)
    requires HeldWhere(m, f)
    ensures f.p != NULL && IsItem(m, f.p)
  {
  }

  /** The new last child and the old one. */
  lemma AddedLinked(m: Memory, f: Shape, x: Shape)
    requires Joinable(m, f, x)
    ensures var kids := f.kids + [x];
            && IsItem(m, f.p) && IsItem(m, x.p) && (f.kids != [] ==> IsItem(m, Last(f.kids)))
            && var m' := AddedCells(m, f.p, Last(f.kids), x.p);
            && m'.Keys == m.Keys && Linked(m', kids)
            && m'[f.p] == ItemCell(ItemOf(f.(kids := kids), m[f.p].item.prev, m[f.p].item.next))
            && forall p :: p in m && p != f.p && p != Last(f.kids) && p != x.p ==> m'[p] == m[p]
  {
    AddedApart(m, f, x);
    KidsWhere(m, f);
    HeldNeighbours(m, x, NULL, NULL);
    AddedCellsAre(m, f.p, Last(f.kids), x.p);
    hide HeldWhere, Held, Owned, OwnedAll, NodeOwned, AddedCells;
    var kids, n := f.kids + [x], |f.kids|;
    var m' := AddedCells(m, f.p, Last(f.kids), x.p);
    forall j | 0 <= j <= n
      ensures kids[j].p in m' && m'[kids[j].p] == ItemCell(ItemOf(kids[j], Before(kids, j), After(kids, j)))
    {
      if j < n {
        assert m[f.kids[j].p] == ItemCell(ItemOf(f.kids[j], Before(f.kids, j), After(f.kids, j)));
      }
    }
  }

  lemma NotUnder(m: Memory, f: Shape, kids: seq<Shape>, j: nat)
    requires j < |kids| && f.p !in OwnedAll(kids)
    ensures kids[j].p != f.p
  {
    OwnedAt(kids, j);
    OwnsItself(kids[j]);
  }

  lemma AllWhereJoined(m: Memory, ss: seq<Shape>, x: Shape)
    requires AllWhere(m, ss) && HeldWhere(m, x)
    ensures AllWhere(m, ss + [x])
  {
    hide HeldWhere;
  }

  lemma AddedChanges(m: Memory, m': Memory, f: Shape, x: Shape)
    requires m'.Keys == m.Keys && NULL !in m
    requires forall p :: p in m && p != f.p && p != Last(f.kids) && p != x.p ==> m'[p] == m[p]
    ensures ChangedOnly(m, m', multiset{f.p} + Tops(f.kids + [x]) + Tops([]))
  {
    var kids := f.kids + [x];
    TopIn(kids, |f.kids|);
    if f.kids != [] {
      TopIn(kids, |f.kids| - 1);
    }
    hide Tops;
    var changed := multiset{f.p} + Tops(kids) + Tops([]);
    assert f.p in changed && x.p in changed && (f.kids != [] ==> Last(f.kids) in changed);
  }

  lemma AddedRelinks(m: Memory, f: Shape, x: Shape)
    requires Joinable(m, f, x) && NULL !in m
    ensures f.kids != [] ==> IsItem(m, Last(f.kids))
    ensures IsItem(m, f.p) && IsItem(m, x.p) && Relinked(m, AddedCells(m, f.p, Last(f.kids), x.p), f, f.kids + [x], [])
  {
    JoinedOwned(m, f, x);
    KidsWhere(m, f);
    AllWhereJoined(m, f.kids, x);
    AddedLinked(m, f, x);
    hide HeldWhere, Held, Owned, OwnedAll, NodeOwned, Linked, ItemOf, Tops, AddedCells, AllWhere, ChangedOnly;
    var kids, m' := f.kids + [x], AddedCells(m, f.p, Last(f.kids), x.p);
    NoneOwned();
    NothingLinked(m);
    NothingLinked(m');
    AddedChanges(m, m', f, x);
    assert NodeOwned(f) + OwnedAll(kids) + OwnedAll([]) == NodeOwned(f) + OwnedAll(kids);
  }

  lemma NothingLinked(m: Memory)
    ensures Linked(m, []) && AllWhere(m, [])
  {
  }

  // ----- detaching -----

  lemma DetachedCellsAre(m: Memory, list: Ptr, c: Ptr)
    requires IsItem(m, list) && IsItem(m, c) && list != c && NULL !in m
    requires var prev, next := m[c].item.prev, m[c].item.next;
             && (prev != NULL ==> IsItem(m, prev)) && (next != NULL ==> IsItem(m, next))
             && list != prev && list != next && c != prev && c != next && (prev == next ==> prev == NULL)
    ensures var prev, next, m' := m[c].item.prev, m[c].item.next, DetachedCells(m, list, c);
            && m'.Keys == m.Keys
            && m'[list] == ItemCell(if m[list].item.child == c then m[list].item.(child := next) else m[list].item)
            && m'[c] == ItemCell(m[c].item.(prev := NULL, next := NULL))
            && (prev != NULL ==> m'[prev] == ItemCell(m[prev].item.(next := next)))
            && (next != NULL ==> m'[next] == ItemCell(m[next].item.(prev := prev)))
            && forall p :: p in m && p != list && p != prev && p != next && p != c ==> m'[p] == m[p]
  {
  }

  /** The container with the nodes around its i-th child: all different, all items. */
  lemma Around(m: Memory, f: Shape, i: nat)
    requires HeldWhere(m, f) && !f.ref && Owned(f) <= Keys(m) && i < |f.kids|
    ensures var c, prev, next := f.kids[i].p, Before(f.kids, i), After(f.kids, i);
            && IsItem(m, f.p) && IsItem(m, c) && m[c].item == ItemOf(f.kids[i], prev, next)
            && (prev == NULL <==> i == 0) && (next == NULL <==> i == |f.kids| - 1)
            && (prev != NULL ==> IsItem(m, prev)) && (next != NULL ==> IsItem(m, next))
            && f.p != NULL && c != NULL && f.p != c && f.p != prev && f.p != next && c != prev && c != next
            && (prev == next ==> prev == NULL)
    ensures m[f.p].item.child == f.kids[i].p <==> i == 0
    ensures m[f.p].item == ItemOf(f, m[f.p].item.prev, m[f.p].item.next)
    ensures NodeOwned(f) + OwnedAll(f.kids) <= Keys(m) && f.p !in OwnedAll(f.kids)
  {
    hide Held, Owned, NodeOwned, OwnedAll, HeldWhere, Before, After, ItemOf;
    OwnApart(m, f);
    WhereNotNull(m, f);
    KidWhere(m, f, i);
    NotUnder(m, f, f.kids, i);
    AroundBefore(m, f, i);
    AroundAfter(m, f, i);
    if Before(f.kids, i) != NULL && After(f.kids, i) != NULL {
      BeforeAfter(m, f.kids, i);
    }
  }

  lemma OwnApart(m: Memory, f: Shape)
    requires Owned(f) <= Keys(m)
    ensures NodeOwned(f) + OwnedAll(f.kids) <= Keys(m) && OwnedAll(f.kids) <= Keys(m) && f.p !in OwnedAll(f.kids)
  {
    hide Owned, NodeOwned, OwnedAll;
    OwnedParts(f);
    OwnsItself(f);
    OnceOwned(m, Owned(f), f.p);
  }

  lemma AroundBefore(m: Memory, f: Shape, i: nat)
    requires HeldWhere(m, f) && !f.ref && OwnedAll(f.kids) <= Keys(m) && f.p !in OwnedAll(f.kids) && i < |f.kids|
    ensures var prev := Before(f.kids, i);
            && (prev == NULL <==> i == 0) && (prev != NULL ==> IsItem(m, prev) && f.p != prev) && f.kids[i].p != prev
            && (f.kids[0].p == f.kids[i].p <==> i == 0)
  {
    hide HeldWhere, Owned, OwnedAll;
    KidWhere(m, f, i);
    if i > 0 {
      KidWhere(m, f, i - 1);
      NotUnder(m, f, f.kids, i - 1);
      TopsDiffer(m, f.kids, i - 1, i);
      TopsDiffer(m, f.kids, 0, i);
    }
  }

  lemma AroundAfter(m: Memory, f: Shape, i: nat)
    requires HeldWhere(m, f) && !f.ref && OwnedAll(f.kids) <= Keys(m) && f.p !in OwnedAll(f.kids) && i < |f.kids|
    ensures var next := After(f.kids, i);
            && (next == NULL <==> i == |f.kids| - 1) && (next != NULL ==> IsItem(m, next) && f.p != next)
            && f.kids[i].p != next
  {
    hide HeldWhere, Owned, OwnedAll;
    KidWhere(m, f, i);
    if i < |f.kids| - 1 {
      KidWhere(m, f, i + 1);
      NotUnder(m, f, f.kids, i + 1);
      TopsDiffer(m, f.kids, i + 1, i);
    }
  }

  lemma BeforeAfter(m: Memory, ss: seq<Shape>, i: nat)
    requires OwnedAll(ss) <= Keys(m) && i < |ss| && Before(ss, i) != NULL && After(ss, i) != NULL
    ensures Before(ss, i) != After(ss, i)
  {
    TopsDiffer(m, ss, i - 1, i + 1);
  }

  lemma KidWhere(m: Memory, f: Shape, j: nat)
    requires HeldWhere(m, f) && !f.ref && j < |f.kids|
    ensures HeldWhere(m, f.kids[j]) && IsItem(m, f.kids[j].p) && f.kids[j].p != NULL
    ensures m[f.kids[j].p] == ItemCell(ItemOf(f.kids[j], Before(f.kids, j), After(f.kids, j)))
    ensures IsItem(m, f.p) && m[f.p].item == ItemOf(f, m[f.p].item.prev, m[f.p].item.next)
    ensures m[f.p].item.child == f.kids[0].p
  {
    ChainWhere(m, f.kids, j);
  }

  /** One of the children that stay. */
  lemma DetachedAt(m: Memory, f: Shape, i: nat, j: nat)
    requires HeldWhere(m, f) && !f.ref && Owned(f) <= Keys(m) && i < |f.kids| && j < |f.kids| - 1 && NULL !in m
    requires IsItem(m, f.p) && IsItem(m, f.kids[i].p)
    requires m[f.kids[i].p].item.prev != NULL ==> IsItem(m, m[f.kids[i].p].item.prev)
    requires m[f.kids[i].p].item.next != NULL ==> IsItem(m, m[f.kids[i].p].item.next)
    ensures var rest, m' := Without(f.kids, i), DetachedCells(m, f.p, f.kids[i].p);
            rest[j].p in m' && m'[rest[j].p] == ItemCell(ItemOf(rest[j], Before(rest, j), After(rest, j)))
  {
    hide Held, Owned, NodeOwned, OwnedAll, HeldWhere, DetachedCells;
    Around(m, f, i);
    var ss, o := f.kids, if j < i then j else j + 1;
    KidWhere(m, f, o);
    NotUnder(m, f, ss, o);
    DetachedCellsAre(m, f.p, ss[i].p);
    KidsDiffer(m, ss, o, i);
    WithoutAt(ss, i, j);
    hide Without, Before, After;
  }

  /** A child differs from another and, where they are not its neighbours, from the other's neighbours. */
  lemma KidsDiffer(m: Memory, ss: seq<Shape>, o: nat, i: nat)
    requires OwnedAll(ss) <= Keys(m) && o < |ss| && i < |ss| && o != i && IsItem(m, ss[o].p) && ss[o].p != NULL
    ensures ss[o].p != ss[i].p
    ensures o == i - 1 ==> ss[o].p == Before(ss, i)
    ensures o != i - 1 ==> ss[o].p != Before(ss, i)
    ensures o == i + 1 ==> ss[o].p == After(ss, i)
    ensures o != i + 1 ==> ss[o].p != After(ss, i)
  {
    TopsDiffer(m, ss, o, i);
    if i > 0 && o != i - 1 {
      TopsDiffer(m, ss, o, i - 1);
    }
    if i < |ss| - 1 && o != i + 1 {
      TopsDiffer(m, ss, o, i + 1);
    }
  }

  lemma WithoutAt(ss: seq<Shape>, i: nat, j: nat)
    requires i < |ss| && j < |ss| - 1
    ensures var rest, o := Without(ss, i), if j < i then j else j + 1;
            && rest[j] == ss[o]
            && Before(rest, j) == (if o == i + 1 then Before(ss, i) else Before(ss, o))
            && After(rest, j) == (if o == i - 1 then After(ss, i) else After(ss, o))
  {
    var rest := Without(ss, i);
    assert forall k :: 0 <= k < |rest| ==> rest[k] == ss[if k < i then k else k + 1];
  }

  lemma DetachedRelinks(m: Memory, f: Shape, i: nat)
    requires HeldWhere(m, f) && !f.ref && Owned(f) <= Keys(m) && i < |f.kids| && NULL !in m
    ensures var c := f.kids[i].p;
            && IsItem(m, f.p) && IsItem(m, c)
            && m[c].item.prev == Before(f.kids, i) && m[c].item.next == After(f.kids, i)
            && (m[c].item.prev != NULL ==> IsItem(m, m[c].item.prev))
            && (m[c].item.next != NULL ==> IsItem(m, m[c].item.next))
            && Relinked(m, DetachedCells(m, f.p, c), f, Without(f.kids, i), [f.kids[i]])
  {
    hide Held, Owned, NodeOwned, OwnedAll, HeldWhere, DetachedCells, Linked, AllWhere, ChangedOnly, Tops;
    Around(m, f, i);
    var rest, out, m' := Without(f.kids, i), [f.kids[i]], DetachedCells(m, f.p, f.kids[i].p);
    DetachedCellsAre(m, f.p, f.kids[i].p);
    AllWhereSplit(m, f, i);
    assert Linked(m', rest) by {
      forall j | 0 <= j < |rest|
        ensures rest[j].p in m' && m'[rest[j].p] == ItemCell(ItemOf(rest[j], Before(rest, j), After(rest, j)))
      {
        DetachedAt(m, f, i, j);
      }
      LinkedEach(m', rest);
    }
    LinkedOne(m', f.kids[i]);
    OwnedAt(f.kids, i);
    OwnedOne(f.kids[i]);
    assert NodeOwned(f) + OwnedAll(rest) + OwnedAll(out) == NodeOwned(f) + OwnedAll(f.kids);
    DetachedChanges(m, m', f, i);
  }

  lemma LinkedEach(m: Memory, ss: seq<Shape>)
    requires forall j :: 0 <= j < |ss| ==>
                           ss[j].p in m && m[ss[j].p] == ItemCell(ItemOf(ss[j], Before(ss, j), After(ss, j)))
    ensures Linked(m, ss)
  {
  }

  lemma LinkedOne(m: Memory, c: Shape)
    requires c.p in m && m[c.p] == ItemCell(ItemOf(c, NULL, NULL))
    ensures Linked(m, [c])
  {
  }

  lemma AllWhereSplit(m: Memory, f: Shape, i: nat)
    requires HeldWhere(m, f) && i < |f.kids|
    ensures AllWhere(m, Without(f.kids, i)) && AllWhere(m, [f.kids[i]])
  {
    KidsWhere(m, f);
    hide HeldWhere;
  }

  lemma DetachedChanges(m: Memory, m': Memory, f: Shape, i: nat)
    requires m'.Keys == m.Keys && NULL !in m && i < |f.kids|
    requires var prev, next := Before(f.kids, i), After(f.kids, i);
             forall p :: p in m && p != f.p && p != prev && p != next && p != f.kids[i].p ==> m'[p] == m[p]
    ensures ChangedOnly(m, m', multiset{f.p} + Tops(Without(f.kids, i)) + Tops([f.kids[i]]))
  {
    var rest := Without(f.kids, i);
    TopIn([f.kids[i]], 0);
    if i > 0 {
      assert rest[i - 1] == f.kids[i - 1];
      TopIn(rest, i - 1);
    }
    if i < |f.kids| - 1 {
      assert rest[i] == f.kids[i + 1];
      TopIn(rest, i);
    }
    hide Tops;
  }

  // ----- replacing -----

  lemma ReplacedCellsAre(m: Memory, list: Ptr, c: Ptr, item: Ptr)
    requires IsItem(m, list) && IsItem(m, c) && IsItem(m, item) && NULL !in m && list != c && list != item && c != item
    requires var prev, next := m[c].item.prev, m[c].item.next;
             && (prev != NULL ==> IsItem(m, prev)) && (next != NULL ==> IsItem(m, next))
             && (prev == NULL <==> m[list].item.child == c)
             && list != prev && list != next && c != prev && c != next && item != prev && item != next
             && (prev == next ==> prev == NULL)
    ensures var prev, next, m' := m[c].item.prev, m[c].item.next, ReplacedCells(m, list, c, item);
            && m'.Keys == m.Keys
            && m'[list] == ItemCell(if prev == NULL then m[list].item.(child := item) else m[list].item)
            && m'[c] == ItemCell(m[c].item.(prev := NULL, next := NULL))
            && m'[item] == ItemCell(m[item].item.(prev := prev, next := next))
            && (prev != NULL ==> m'[prev] == ItemCell(m[prev].item.(next := item)))
            && (next != NULL ==> m'[next] == ItemCell(m[next].item.(prev := item)))
            && forall p :: p in m && p != list && p != prev && p != next && p != c && p != item ==> m'[p] == m[p]
  {
  }

  /** What replacing needs of the nodes it touches. */
  ghost predicate Replaceable(m: Memory, f: Shape, i: nat, y: Shape) {
    Joinable(m, f, y) && i < |f.kids| && NULL !in m
  }

  lemma AroundNew(m: Memory, f: Shape, i: nat, y: Shape)
    requires Replaceable(m, f, i, y)
    ensures IsItem(m, y.p) && m[y.p].item == ItemOf(y, NULL, NULL) && y.p != f.p && y.p != NULL
    ensures Apart(y.p, f.kids) && y.p != f.kids[i].p && y.p != Before(f.kids, i) && y.p != After(f.kids, i)
  {
    JoinedOwned(m, f, y);
    HeldNeighbours(m, y, NULL, NULL);
    WhereNotNull(m, y);
    AddedApart(m, f, y);
  }

  lemma ReplacedAt(m: Memory, f: Shape, i: nat, y: Shape, j: nat)
    requires Replaceable(m, f, i, y) && j < |f.kids|
    requires IsItem(m, f.p) && IsItem(m, f.kids[i].p) && IsItem(m, y.p)
    requires m[f.kids[i].p].item.prev != NULL ==> IsItem(m, m[f.kids[i].p].item.prev)
    requires m[f.kids[i].p].item.next != NULL ==> IsItem(m, m[f.kids[i].p].item.next)
    requires m[f.kids[i].p].item.prev == NULL ==> m[f.p].item.child == f.kids[i].p
    ensures var kids, m' := f.kids[i := y], ReplacedCells(m, f.p, f.kids[i].p, y.p);
            kids[j].p in m' && m'[kids[j].p] == ItemCell(ItemOf(kids[j], Before(kids, j), After(kids, j)))
  {
    hide Held, Owned, NodeOwned, OwnedAll, HeldWhere, ReplacedCells, Apart;
    assert Owned(f) <= Keys(m);
    Around(m, f, i);
    AroundNew(m, f, i, y);
    ReplacedCellsAre(m, f.p, f.kids[i].p, y.p);
    var ss := f.kids;
    UpdatedAt(ss, i, y, j);
    if j != i {
      KidWhere(m, f, j);
      NotUnder(m, f, ss, j);
      NotAt(y.p, ss, j);
      KidsDiffer(m, ss, j, i);
    }
    hide Before, After;
  }

  lemma NotAt(p: Ptr, ss: seq<Shape>, j: nat)
    requires Apart(p, ss) && j < |ss|
    ensures ss[j].p != p
  {
  }

  lemma UpdatedAt(ss: seq<Shape>, i: nat, y: Shape, j: nat)
    requires i < |ss| && j < |ss|
    ensures var kids := ss[i := y];
            && kids[j] == (if j == i then y else ss[j])
            && Before(kids, j) == (if j == i + 1 then y.p else Before(ss, j))
            && After(kids, j) == (if j == i - 1 then y.p else After(ss, j))
  {
  }

  lemma ReplacedRelinks(m: Memory, f: Shape, i: nat, y: Shape)
    requires Replaceable(m, f, i, y)
    ensures var c := f.kids[i].p;
            && IsItem(m, f.p) && IsItem(m, c) && IsItem(m, y.p)
            && m[c].item.prev == Before(f.kids, i) && m[c].item.next == After(f.kids, i)
            && (m[c].item.prev != NULL ==> IsItem(m, m[c].item.prev))
            && (m[c].item.prev == NULL ==> m[f.p].item.child == c)
            && (m[c].item.next != NULL ==> IsItem(m, m[c].item.next))
            && Relinked(m, ReplacedCells(m, f.p, c, y.p), f, f.kids[i := y], [f.kids[i]])
  {
    hide Held, Owned, NodeOwned, OwnedAll, HeldWhere, ReplacedCells, Linked, AllWhere, ChangedOnly, Tops;
    assert Owned(f) <= Keys(m);
    Around(m, f, i);
    AroundNew(m, f, i, y);
    var kids, out, m' := f.kids[i := y], [f.kids[i]], ReplacedCells(m, f.p, f.kids[i].p, y.p);
    ReplacedCellsAre(m, f.p, f.kids[i].p, y.p);
    AllWhereSplit(m, f, i);
    AllWhereReplaced(m, f, i, y);
    assert Linked(m', kids) by {
      forall j | 0 <= j < |kids|
        ensures kids[j].p in m' && m'[kids[j].p] == ItemCell(ItemOf(kids[j], Before(kids, j), After(kids, j)))
      {
        ReplacedAt(m, f, i, y, j);
      }
      LinkedEach(m', kids);
    }
    LinkedOne(m', f.kids[i]);
    ReplacedOwned(m, f, i, y);
    ReplacedChanges(m, m', f, i, y);
  }

  lemma AllWhereReplaced(m: Memory, f: Shape, i: nat, y: Shape)
    requires Replaceable(m, f, i, y)
    ensures AllWhere(m, f.kids[i := y])
  {
    KidsWhere(m, f);
    JoinedOwned(m, f, y);
    hide HeldWhere;
  }

  lemma ReplacedOwned(m: Memory, f: Shape, i: nat, y: Shape)
    requires Replaceable(m, f, i, y)
    ensures OwnedAll(f.kids[i := y]) + OwnedAll([f.kids[i]]) == OwnedAll(f.kids) + OwnedAll([y])
    ensures NodeOwned(f) + OwnedAll(f.kids[i := y]) + OwnedAll([f.kids[i]]) <= Keys(m)
  {
    hide Held, Owned, NodeOwned, OwnedAll, HeldWhere;
    var kids := f.kids[i := y];
    OwnedAt(kids, i);
    OwnedAt(f.kids, i);
    assert Without(kids, i) == Without(f.kids, i);
    OwnedOne(y);
    OwnedOne(f.kids[i]);
    OwnedParts(f);
    assert NodeOwned(f) + OwnedAll(kids) + OwnedAll([f.kids[i]]) == Owned(f) + Owned(y);
  }

  /** Five nodes among those that may change: the others do not. */
  lemma ChangedFive(m: Memory, m': Memory, ps: multiset<Ptr>, a: Ptr, b: Ptr, c: Ptr, d: Ptr, e: Ptr)
    requires m'.Keys == m.Keys && NULL !in m
    requires forall p :: p in m && p != a && p != b && p != c && p != d && p != e ==> m'[p] == m[p]
    requires a in ps && (b != NULL ==> b in ps) && (c != NULL ==> c in ps) && d in ps && e in ps
    ensures ChangedOnly(m, m', ps)
  {
  }

  lemma ReplacedChanges(m: Memory, m': Memory, f: Shape, i: nat, y: Shape)
    requires m'.Keys == m.Keys && NULL !in m && i < |f.kids|
    requires var prev, next := Before(f.kids, i), After(f.kids, i);
             forall p :: p in m && p != f.p && p != prev && p != next && p != f.kids[i].p && p != y.p ==> m'[p] == m[p]
    ensures ChangedOnly(m, m', multiset{f.p} + Tops(f.kids[i := y]) + Tops([f.kids[i]]))
  {
    hide Tops, ChangedOnly;
    var kids := f.kids[i := y];
    TopIn([f.kids[i]], 0);
    TopIn(kids, i);
    if i > 0 {
      TopIn(kids, i - 1);
    }
    if i < |f.kids| - 1 {
      TopIn(kids, i + 1);
    }
    var changed := multiset{f.p} + Tops(kids) + Tops([f.kids[i]]);
    ChangedFive(m, m', changed, f.p, Before(f.kids, i), After(f.kids, i), f.kids[i].p, y.p);
  }
}
