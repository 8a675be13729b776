/** Finding a node in shapes, and giving it other children while everything around it stays. */
module TreeForest {
  import opened Wrappers
  import opened TreeShapes

  function Find(sh: Shape, target: Ptr): Option<Shape>
    decreases sh
  {
    if sh.p == target then Some(sh) else FindAll(sh.kids, target)
  }

  function FindAll(ss: seq<Shape>, target: Ptr): Option<Shape>
    decreases ss
  {
    if ss == [] then None
    else if Find(ss[0], target).Some? then Find(ss[0], target)
    else FindAll(ss[1..], target)
  }

  /** The shape with other children for the target. */
  function Edit(sh: Shape, target: Ptr, kids: seq<Shape>): (r: Shape)
    ensures r.p == sh.p
    decreases sh
  {
    if sh.p == target then sh.(kids := kids) else sh.(kids := EditAll(sh.kids, target, kids))
  }

  function EditAll(ss: seq<Shape>, target: Ptr, kids: seq<Shape>): (r: seq<Shape>)
    ensures |r| == |ss|
    decreases ss
  {
    if ss == [] then [] else [Edit(ss[0], target, kids)] + EditAll(ss[1..], target, kids)
  }

  lemma {:induction false} EditAt(ss: seq<Shape>, target: Ptr, kids: seq<Shape>, i: nat)
    requires i < |ss|
    ensures EditAll(ss, target, kids)[i] == Edit(ss[i], target, kids)
  {
    hide Edit;
    if i > 0 {
      EditAt(ss[1..], target, kids, i - 1);
    }
  }

  lemma {:induction false} FindOwned(sh: Shape, target: Ptr)
    requires Find(sh, target).Some?
    ensures Find(sh, target).value.p == target && target in Owned(sh) && Owned(Find(sh, target).value) <= Owned(sh)
    decreases sh, 1
  {
    hide NodeOwned;
    assert sh.p in NodeOwned(sh) by {
      OwnsItself(sh);
    }
    if sh.p != target {
      FindAllOwned(sh.kids, target);
    }
  }

  lemma OwnsItself(sh: Shape)
    ensures sh.p in NodeOwned(sh) && sh.p in Owned(sh)
  {
  }

  lemma {:induction false} FindAllOwned(ss: seq<Shape>, target: Ptr)
    requires FindAll(ss, target).Some?
    ensures FindAll(ss, target).value.p == target && target in OwnedAll(ss)
    ensures Owned(FindAll(ss, target).value) <= OwnedAll(ss)
    decreases ss, 0
  {
    hide Owned, Find;
    if Find(ss[0], target).Some? {
      FindOwned(ss[0], target);
    } else {
      FindAllOwned(ss[1..], target);
    }
  }

  /** A shape in which the target is not found is not changed. */
  lemma {:induction false} EditElsewhere(sh: Shape, target: Ptr, kids: seq<Shape>)
    requires Find(sh, target).None?
    ensures Edit(sh, target, kids) == sh
    decreases sh, 1
  {
    EditAllElsewhere(sh.kids, target, kids);
  }

  lemma {:induction false} EditAllElsewhere(ss: seq<Shape>, target: Ptr, kids: seq<Shape>)
    requires FindAll(ss, target).None?
    ensures EditAll(ss, target, kids) == ss
    decreases ss, 0
  {
    hide Edit, Find;
    if ss != [] {
      EditElsewhere(ss[0], target, kids);
      EditAllElsewhere(ss[1..], target, kids);
    }
  }

  /** What is owned changes by what the target's children own. */
  lemma {:induction false} EditOwned(sh: Shape, target: Ptr, kids: seq<Shape>)
    requires Find(sh, target).Some? && Owned(sh)[target] == 1
    ensures var f := Find(sh, target).value;
            && OwnedAll(f.kids) <= Owned(sh)
            && Owned(Edit(sh, target, kids)) == Owned(sh) - OwnedAll(f.kids) + OwnedAll(kids)
    decreases sh, 1
  {
    hide NodeOwned, OwnedAll;
    OwnsItself(sh);
    var r := Edit(sh, target, kids);
    assert NodeOwned(r) == NodeOwned(sh) by {
      NodeOwnedOf(sh, r.kids);
    }
    if sh.p != target {
      FindAllOwned(sh.kids, target);
      assert OwnedAll(sh.kids)[target] == 1;
      EditAllOwned(sh.kids, target, kids);
    }
  }

  lemma NodeOwnedOf(sh: Shape, kids: seq<Shape>)
    ensures NodeOwned(sh.(kids := kids)) == NodeOwned(sh)
  {
  }

  lemma {:induction false} EditAllOwned(ss: seq<Shape>, target: Ptr, kids: seq<Shape>)
    requires FindAll(ss, target).Some? && OwnedAll(ss)[target] == 1
    ensures var f := FindAll(ss, target).value;
            && OwnedAll(f.kids) <= OwnedAll(ss)
            && OwnedAll(EditAll(ss, target, kids)) == OwnedAll(ss) - OwnedAll(f.kids) + OwnedAll(kids)
    decreases ss, 0
  {
    hide Owned, Find, Edit;
    if Find(ss[0], target).Some? {
      FindOwned(ss[0], target);
      assert OwnedAll(ss[1..])[target] == 0;
      if FindAll(ss[1..], target).Some? {
        FindAllOwned(ss[1..], target);
      }
      EditAllElsewhere(ss[1..], target, kids);
      EditOwned(ss[0], target, kids);
    } else {
      EditElsewhere(ss[0], target, kids);
      FindAllOwned(ss[1..], target);
      EditAllOwned(ss[1..], target, kids);
    }
  }

  /** A node is held, between the neighbours that its item names. */
  ghost predicate HeldWhere(m: Memory, f: Shape) {
    f.p in m && m[f.p].ItemCell? && Held(m, f, m[f.p].item.prev, m[f.p].item.next)
  }

  lemma {:induction false} FindHeld(m: Memory, sh: Shape, prev: Ptr, next: Ptr, target: Ptr)
    requires Held(m, sh, prev, next) && Find(sh, target).Some?
    ensures HeldWhere(m, Find(sh, target).value)
    decreases sh, 1
  {
    if sh.p != target {
      FindAllHeld(m, sh.kids, 0, target);
    }
  }

  lemma {:induction false} FindAllHeld(m: Memory, ss: seq<Shape>, k: nat, target: Ptr)
    requires k <= |ss| && LinkedFrom(m, ss, k) && FindAll(ss[k..], target).Some?
    ensures HeldWhere(m, FindAll(ss[k..], target).value)
    decreases ss, |ss| - k
  {
    hide Held, Find, HeldWhere;
    LinkedAt(m, ss, k);
    assert ss[k..][1..] == ss[k + 1..];
    if Find(ss[k], target).Some? {
      FindHeld(m, ss[k], Before(ss, k), After(ss, k), target);
    } else {
      LinkedOn(m, m, ss, k);
      FindAllHeld(m, ss, k + 1, target);
    }
  }

  /** The one sibling below which the target is, and none of its allocations with the others. */
  lemma {:induction false} FoundAt(ss: seq<Shape>, target: Ptr) returns (i: nat)
    requires FindAll(ss, target).Some? && OwnedAll(ss)[target] == 1
    ensures i < |ss| && Find(ss[i], target) == FindAll(ss, target) && Owned(ss[i])[target] == 1
    ensures forall j :: 0 <= j < |ss| && j != i ==> Find(ss[j], target).None?
    decreases |ss|
  {
    hide Owned, Find;
    if Find(ss[0], target).Some? {
      i := 0;
      FindOwned(ss[0], target);
      forall j | 0 < j < |ss|
        ensures Find(ss[j], target).None?
      {
        OwnedAt(ss[1..], j - 1);
        if Find(ss[j], target).Some? {
          FindOwned(ss[j], target);
        }
      }
    } else {
      FindAllOwned(ss[1..], target);
      i := FoundAt(ss[1..], target);
      i := i + 1;
    }
  }

  /** Memory that holds the target with other children, and all else as it was, holds the edited shape. */
  lemma {:induction false} EditHeld(m: Memory, m': Memory, sh: Shape, prev: Ptr, next: Ptr,
                                    target: Ptr, kids: seq<Shape>)
    requires Held(m, sh, prev, next) && Find(sh, target).Some? && Owned(sh)[target] == 1
    requires var f := Find(sh, target).value;
             && Same(m, m', Owned(sh) - Owned(f)) && target in m && m[target].ItemCell?
             && Held(m', f.(kids := kids), m[target].item.prev, m[target].item.next)
    ensures Held(m', Edit(sh, target, kids), prev, next)
    decreases sh, 1
  {
    hide Held, NodeHeld, NodeOwned, Chain, OwnedAll, Same, Owned;
    var f := Find(sh, target).value;
    if sh.p == target {
      HeldNeighbours(m, sh, prev, next);
    } else {
      FindAllOwned(sh.kids, target);
      OwnedOnce(sh, target);
      OutsideFound(sh, f);
      SameLess(m, m', NodeOwned(sh), Owned(sh) - Owned(f));
      SameLess(m, m', OwnedAll(sh.kids) - Owned(f), Owned(sh) - Owned(f));
      HeldParts(m, sh, prev, next);
      NodeFrame(m, m', sh, prev, next);
      EditChain(m, m', sh.kids, target, kids);
      var es := EditAll(sh.kids, target, kids);
      if sh.kids != [] {
        EditAt(sh.kids, target, kids, 0);
      }
      NodeHeldOf(m', sh, es, prev, next);
      HeldParts(m', sh.(kids := es), prev, next);
    }
  }

  lemma HeldParts(m: Memory, sh: Shape, prev: Ptr, next: Ptr)
    ensures Held(m, sh, prev, next) <==> NodeHeld(m, sh, prev, next) && Chain(m, sh.kids)
  {
  }

  lemma HeldNeighbours(m: Memory, sh: Shape, prev: Ptr, next: Ptr)
    requires Held(m, sh, prev, next)
    ensures sh.p in m && m[sh.p].ItemCell? && m[sh.p].item == ItemOf(sh, prev, next)
    ensures m[sh.p].item.prev == prev && m[sh.p].item.next == next
  {
  }

  lemma OutsideFound(sh: Shape, f: Shape)
    requires Owned(f) <= OwnedAll(sh.kids)
    ensures NodeOwned(sh) <= Owned(sh) - Owned(f)
    ensures OwnedAll(sh.kids) - Owned(f) <= Owned(sh) - Owned(f)
  {
    hide NodeOwned, OwnedAll;
  }

  lemma SameLess(m: Memory, m': Memory, ps: multiset<Ptr>, qs: multiset<Ptr>)
    requires ps <= qs && Same(m, m', qs)
    ensures Same(m, m', ps)
  {
  }

  lemma OwnedOnce(sh: Shape, target: Ptr)
    requires Owned(sh)[target] == 1 && target in OwnedAll(sh.kids)
    ensures OwnedAll(sh.kids)[target] == 1
  {
  }

  lemma NodeHeldOf(m: Memory, sh: Shape, kids: seq<Shape>, prev: Ptr, next: Ptr)
    requires NodeHeld(m, sh, prev, next) && Head(kids) == Head(sh.kids) && |kids| == |sh.kids|
    ensures NodeHeld(m, sh.(kids := kids), prev, next)
  {
  }

  lemma {:induction false} EditChain(m: Memory, m': Memory, ss: seq<Shape>, target: Ptr, kids: seq<Shape>)
    requires Chain(m, ss) && FindAll(ss, target).Some? && OwnedAll(ss)[target] == 1
    requires var f := FindAll(ss, target).value;
             && Same(m, m', OwnedAll(ss) - Owned(f)) && target in m && m[target].ItemCell?
             && Held(m', f.(kids := kids), m[target].item.prev, m[target].item.next)
    ensures Chain(m', EditAll(ss, target, kids))
    decreases ss, 0
  {
    hide Held, Owned, Find, Edit, OwnedAll, FindAll, EditAll;
    var f := FindAll(ss, target).value;
    var i := FoundAt(ss, target);
    FindOwned(ss[i], target);
    OwnedAt(ss, i);
    var es := EditAll(ss, target, kids);
    forall j | 0 <= j < |es|
      ensures Held(m', es[j], Before(es, j), After(es, j))
    {
      EditAt(ss, target, kids, j);
      SameNeighbours(ss, target, kids, j);
      assert Held(m, ss[j], Before(ss, j), After(ss, j));
      if j == i {
        EditHeld(m, m', ss[i], Before(ss, i), After(ss, i), target, kids);
      } else {
        EditElsewhere(ss[j], target, kids);
        OwnedApart(ss, i, j);
        HeldFrame(m, m', ss[j], Before(ss, j), After(ss, j));
      }
    }
  }

  lemma SameNeighbours(ss: seq<Shape>, target: Ptr, kids: seq<Shape>, j: nat)
    requires j < |ss|
    ensures var es := EditAll(ss, target, kids); Before(es, j) == Before(ss, j) && After(es, j) == After(ss, j)
  {
    hide Edit;
    if j > 0 {
      EditAt(ss, target, kids, j - 1);
    }
    if j < |ss| - 1 {
      EditAt(ss, target, kids, j + 1);
    }
  }

  lemma OwnedApart(ss: seq<Shape>, i: nat, j: nat)
    requires i < |ss| && j < |ss| && i != j
    ensures Owned(ss[i]) + Owned(ss[j]) <= OwnedAll(ss)
  {
    hide Owned;
    OwnedAt(ss, i);
    var rest, k := Without(ss, i), if j < i then j else j - 1;
    assert rest[k] == ss[j];
    OwnedAt(rest, k);
  }

  // ----- roots -----

  /** Detached trees: nothing before and nothing after their roots. */
  ghost predicate Rooted(m: Memory, roots: seq<Shape>) {
    forall i :: 0 <= i < |roots| ==> Held(m, roots[i], NULL, NULL)
  }

  /** Every allocation is owned, by one tree, once, except for the lost ones, which nothing will free. */
  ghost predicate Sound(m: Memory, roots: seq<Shape>, lost: multiset<Ptr>) {
    Rooted(m, roots) && Keys(m) == OwnedAll(roots) + lost && NULL !in m
  }

  lemma OnceOwned(m: Memory, ps: multiset<Ptr>, p: Ptr)
    requires ps <= Keys(m)
    ensures ps[p] <= 1 && (p in ps ==> ps[p] == 1 && p in m)
  {
  }

  lemma RootHeld(m: Memory, roots: seq<Shape>, target: Ptr)
    requires Rooted(m, roots) && FindAll(roots, target).Some? && OwnedAll(roots)[target] == 1
    ensures HeldWhere(m, FindAll(roots, target).value)
  {
    hide Held, Find, HeldWhere;
    var i := FoundAt(roots, target);
    FindHeld(m, roots[i], NULL, NULL, target);
  }

  lemma EditRooted(m: Memory, m': Memory, roots: seq<Shape>, target: Ptr, kids: seq<Shape>)
    requires Rooted(m, roots) && FindAll(roots, target).Some? && OwnedAll(roots)[target] == 1
    requires var f := FindAll(roots, target).value;
             && Same(m, m', OwnedAll(roots) - Owned(f)) && target in m && m[target].ItemCell?
             && Held(m', f.(kids := kids), m[target].item.prev, m[target].item.next)
    ensures Rooted(m', EditAll(roots, target, kids))
  {
    hide Held, Owned, Find, Edit, OwnedAll, FindAll, EditAll, Same;
    var f := FindAll(roots, target).value;
    var i := FoundAt(roots, target);
    FindOwned(roots[i], target);
    OwnedAt(roots, i);
    var es := EditAll(roots, target, kids);
    forall j | 0 <= j < |es|
      ensures Held(m', es[j], NULL, NULL)
    {
      EditAt(roots, target, kids, j);
      if j == i {
        SameLess(m, m', Owned(roots[i]) - Owned(f), OwnedAll(roots) - Owned(f));
        EditHeld(m, m', roots[i], NULL, NULL, target, kids);
      } else {
        EditElsewhere(roots[j], target, kids);
        OwnedApart(roots, i, j);
        SameLess(m, m', Owned(roots[j]), OwnedAll(roots) - Owned(f));
        HeldFrame(m, m', roots[j], NULL, NULL);
      }
    }
  }

  lemma RootedFrame(m: Memory, m': Memory, roots: seq<Shape>)
    requires Rooted(m, roots) && Same(m, m', OwnedAll(roots))
    ensures Rooted(m', roots)
  {
    hide Held, Owned, OwnedAll, Same;
    forall j | 0 <= j < |roots|
      ensures Held(m', roots[j], NULL, NULL)
    {
      OwnedAt(roots, j);
      SameLess(m, m', Owned(roots[j]), OwnedAll(roots));
      HeldFrame(m, m', roots[j], NULL, NULL);
    }
  }

  // ----- lists of siblings linked anew -----

  function Tops(ss: seq<Shape>): multiset<Ptr> {
    if ss == [] then multiset{} else multiset{ss[0].p} + Tops(ss[1..])
  }

  /** The nodes that are not at the top keep their cells, and those at the top their strings. */
  lemma HeldMoved(m: Memory, m': Memory, sh: Shape, prev: Ptr, next: Ptr)
    requires HeldWhere(m, sh) && Owned(sh)[sh.p] == 1 && Same(m, m', Owned(sh) - multiset{sh.p})
    requires sh.p in m' && m'[sh.p] == ItemCell(ItemOf(sh, prev, next))
    ensures Held(m', sh, prev, next)
  {
    hide Chain, OwnedAll, NodeOwned, NodeHeld, Same;
    var p := multiset{sh.p};
    OwnsItself(sh);
    TopAlone(sh);
    SameLess(m, m', OwnedAll(sh.kids), Owned(sh) - p);
    SameLess(m, m', NodeOwned(sh) - p, Owned(sh) - p);
    ChainFrame(m, m', sh.kids);
    NodeMoved(m, m', sh, m[sh.p].item.prev, m[sh.p].item.next, prev, next);
  }

  lemma TopAlone(sh: Shape)
    requires Owned(sh)[sh.p] == 1
    ensures OwnedAll(sh.kids) <= Owned(sh) - multiset{sh.p}
    ensures NodeOwned(sh) - multiset{sh.p} <= Owned(sh) - multiset{sh.p}
    ensures NodeOwned(sh)[sh.p] == 1
  {
    hide OwnedAll;
  }

  lemma NodeMoved(m: Memory, m': Memory, sh: Shape, prev: Ptr, next: Ptr, prev': Ptr, next': Ptr)
    requires NodeHeld(m, sh, prev, next) && NodeOwned(sh)[sh.p] == 1 && Same(m, m', NodeOwned(sh) - multiset{sh.p})
    requires sh.p in m' && m'[sh.p] == ItemCell(ItemOf(sh, prev', next'))
    ensures NodeHeld(m', sh, prev', next')
  {
    var rest := NodeOwned(sh) - multiset{sh.p};
    assert rest == TextOwned(sh.name) + ValueOwned(sh);
    assert sh.name.Text? ==> sh.name.p in rest;
    assert !sh.ref && sh.value.Text? ==> sh.value.p in rest;
  }

  lemma {:induction false} TopAt(ss: seq<Shape>, i: nat)
    requires i < |ss|
    ensures Tops(ss) <= OwnedAll(ss) && Owned(ss[i]) - multiset{ss[i].p} <= OwnedAll(ss) - Tops(ss)
  {
    hide NodeOwned;
    TopsOwned(ss);
    OwnsItself(ss[0]);
    TopsOwned(ss[1..]);
    hide Owned;
    if i > 0 {
      TopAt(ss[1..], i - 1);
    }
  }

  lemma {:induction false} TopsOwned(ss: seq<Shape>)
    ensures Tops(ss) <= OwnedAll(ss)
  {
    hide Owned;
    if ss != [] {
      OwnsItself(ss[0]);
      TopsOwned(ss[1..]);
    }
  }

  /** Nodes held somewhere, and now linked to each other, make a chain. */
  lemma ChainLinkedAnew(m: Memory, m': Memory, ss: seq<Shape>)
    requires OwnedAll(ss) <= Keys(m) && Same(m, m', OwnedAll(ss) - Tops(ss))
    requires forall j :: 0 <= j < |ss| ==> HeldWhere(m, ss[j])
    requires forall j :: 0 <= j < |ss| ==>
                           ss[j].p in m' && m'[ss[j].p] == ItemCell(ItemOf(ss[j], Before(ss, j), After(ss, j)))
    ensures Chain(m', ss)
  {
    hide Held, HeldWhere, Owned, OwnedAll, Tops, Same, ItemOf;
    forall j | 0 <= j < |ss|
      ensures Held(m', ss[j], Before(ss, j), After(ss, j))
    {
      OwnedAt(ss, j);
      OwnsItself(ss[j]);
      OnceOwned(m, Owned(ss[j]), ss[j].p);
      TopAt(ss, j);
      SameLess(m, m', Owned(ss[j]) - multiset{ss[j].p}, OwnedAll(ss) - Tops(ss));
      HeldMoved(m, m', ss[j], Before(ss, j), After(ss, j));
    }
  }

  lemma TopsDiffer(m: Memory, ss: seq<Shape>, i: nat, j: nat)
    requires OwnedAll(ss) <= Keys(m) && i < |ss| && j < |ss| && i != j
    ensures ss[i].p != ss[j].p
  {
    OwnedApart(ss, i, j);
    OwnsItself(ss[i]);
    OwnsItself(ss[j]);
    OnceOwned(m, Owned(ss[i]) + Owned(ss[j]), ss[i].p);
  }

  lemma ChainWhere(m: Memory, ss: seq<Shape>, i: nat)
    requires Chain(m, ss) && i < |ss|
    ensures HeldWhere(m, ss[i]) && m[ss[i].p] == ItemCell(ItemOf(ss[i], Before(ss, i), After(ss, i)))
  {
    assert Held(m, ss[i], Before(ss, i), After(ss, i));
  }

  /** The same allocations, and only these cells differ. */
  ghost predicate ChangedOnly(m: Memory, m': Memory, ps: multiset<Ptr>) {
    m'.Keys == m.Keys && forall p :: p in m && p !in ps ==> m'[p] == m[p]
  }

  lemma ChangedElsewhere(m: Memory, m': Memory, changed: multiset<Ptr>, ps: multiset<Ptr>)
    requires ChangedOnly(m, m', changed) && changed + ps <= Keys(m)
    ensures Same(m, m', ps)
  {
    forall p | p in ps
      ensures p in m && m'[p] == m[p]
    {
      OnceOwned(m, changed + ps, p);
    }
  }

  /** In m' the nodes are linked to each other as a list. */
  ghost predicate Linked(m: Memory, ss: seq<Shape>) {
    forall j :: 0 <= j < |ss| ==> ss[j].p in m && m[ss[j].p] == ItemCell(ItemOf(ss[j], Before(ss, j), After(ss, j)))
  }

  /** The nodes are held, wherever they are. */
  ghost predicate AllWhere(m: Memory, ss: seq<Shape>) {
    forall j :: 0 <= j < |ss| ==> HeldWhere(m, ss[j])
  }

  /** The container's new children: its item and they are linked, and nothing else of theirs is touched. */
  ghost predicate Relinked(m: Memory, m': Memory, f: Shape, kids: seq<Shape>, out: seq<Shape>) {
    && HeldWhere(m, f) && !f.ref && AllWhere(m, kids) && AllWhere(m, out)
    && NodeOwned(f) + OwnedAll(kids) + OwnedAll(out) <= Keys(m)
    && ChangedOnly(m, m', multiset{f.p} + Tops(kids) + Tops(out))
    && f.p in m' && m'[f.p] == ItemCell(ItemOf(f.(kids := kids), m[f.p].item.prev, m[f.p].item.next))
    && Linked(m', kids) && Linked(m', out)
  }

  lemma RelinkedHeld(m: Memory, m': Memory, f: Shape, kids: seq<Shape>, out: seq<Shape>)
    requires Relinked(m, m', f, kids, out)
    ensures Held(m', f.(kids := kids), m[f.p].item.prev, m[f.p].item.next) && Chain(m', out)
  {
    hide Held, NodeHeld, Owned, OwnedAll, NodeOwned, Tops, ChangedOnly, Chain, Same;
    var top, tops, others := multiset{f.p}, Tops(kids), Tops(out);
    TopsOwned(kids);
    TopsOwned(out);
    OwnsItself(f);
    ChangedElsewhere(m, m', top + tops + others, OwnedAll(kids) - tops);
    ChainLinkedAnew(m, m', kids);
    ChangedElsewhere(m, m', top + tops + others, OwnedAll(out) - others);
    ChainLinkedAnew(m, m', out);
    ChangedElsewhere(m, m', top + tops + others, NodeOwned(f) - top);
    OnceOwned(m, NodeOwned(f), f.p);
    NodeRelinked(m, m', f, kids);
    HeldParts(m', f.(kids := kids), m[f.p].item.prev, m[f.p].item.next);
  }

  lemma NodeRelinked(m: Memory, m': Memory, f: Shape, kids: seq<Shape>)
    requires HeldWhere(m, f) && !f.ref && NodeOwned(f)[f.p] == 1 && Same(m, m', NodeOwned(f) - multiset{f.p})
    requires f.p in m' && m'[f.p] == ItemCell(ItemOf(f.(kids := kids), m[f.p].item.prev, m[f.p].item.next))
    ensures NodeHeld(m', f.(kids := kids), m[f.p].item.prev, m[f.p].item.next)
  {
    hide Same, NodeOwned;
    var prev, next := m[f.p].item.prev, m[f.p].item.next;
    assert NodeHeld(m, f, prev, next);
    TextsKept(m, m', f);
  }

  lemma TextsKept(m: Memory, m': Memory, f: Shape)
    requires NodeOwned(f)[f.p] == 1 && Same(m, m', NodeOwned(f) - multiset{f.p})
    requires TextHeld(m, f.name) && !f.ref && TextHeld(m, f.value)
    ensures TextHeld(m', f.name) && TextHeld(m', f.value)
  {
    var rest := NodeOwned(f) - multiset{f.p};
    assert rest == TextOwned(f.name) + ValueOwned(f);
    assert f.name.Text? ==> f.name.p in rest;
    assert f.value.Text? ==> f.value.p in rest;
  }

  /**
   A container below the roots is given other children, some of them from outside, while others leave it:
   memory is as sound as before.
   */
  lemma RelinkedRoots(m: Memory, m': Memory, roots: seq<Shape>, target: Ptr, kids: seq<Shape>,
                      out: seq<Shape>, extra: seq<Shape>)
    requires Rooted(m, roots) && FindAll(roots, target).Some? && OwnedAll(roots) + OwnedAll(extra) <= Keys(m)
    requires var f := FindAll(roots, target).value;
             Relinked(m, m', f, kids, out) && OwnedAll(kids) + OwnedAll(out) == OwnedAll(f.kids) + OwnedAll(extra)
    ensures Rooted(m', EditAll(roots, target, kids)) && Chain(m', out)
    ensures OwnedAll(EditAll(roots, target, kids)) + OwnedAll(out) == OwnedAll(roots) + OwnedAll(extra)
  {
    hide Held, NodeHeld, Owned, OwnedAll, NodeOwned, Tops, ChangedOnly;
    hide Chain, Same, FindAll, EditAll, Linked, AllWhere, Rooted;
    var f := FindAll(roots, target).value;
    FindAllOwned(roots, target);
    OnceOwned(m, OwnedAll(roots), target);
    RelinkedHeld(m, m', f, kids, out);
    TopsOwned(kids);
    TopsOwned(out);
    OwnsItself(f);
    OwnedParts(f);
    var top, tops := multiset{f.p}, Tops(kids) + Tops(out);
    assert top <= NodeOwned(f);
    BagSum(Tops(kids), Tops(out), OwnedAll(kids), OwnedAll(out));
    BagSum(top, tops, NodeOwned(f), OwnedAll(f.kids) + OwnedAll(extra));
    BagApart(top + tops, Owned(f), OwnedAll(extra), OwnedAll(roots), Keys(m));
    assert top + Tops(kids) + Tops(out) == top + tops;
    ChangedElsewhere(m, m', top + tops, OwnedAll(roots) - Owned(f));
    EditRooted(m, m', roots, target, kids);
    EditAllOwned(roots, target, kids);
    BagMove(OwnedAll(roots), OwnedAll(f.kids), OwnedAll(kids), OwnedAll(out), OwnedAll(extra));
  }

  lemma BagSum(a: multiset<Ptr>, b: multiset<Ptr>, x: multiset<Ptr>, y: multiset<Ptr>)
    requires a <= x && b <= y
    ensures a + b <= x + y
  {
  }

  lemma BagApart(a: multiset<Ptr>, own: multiset<Ptr>, extra: multiset<Ptr>, all: multiset<Ptr>, keys: multiset<Ptr>)
    requires a <= own + extra && own <= all && all + extra <= keys
    ensures a + (all - own) <= keys
  {
  }

  lemma BagMove(all: multiset<Ptr>, before: multiset<Ptr>, after: multiset<Ptr>, out: multiset<Ptr>,
                extra: multiset<Ptr>)
    requires before <= all && after + out == before + extra
    ensures all - before + after + out == all + extra
  {
    assert all - before + (after + out) == all - before + (before + extra) == all + extra;
  }

  lemma OwnedParts(sh: Shape)
    ensures Owned(sh) == NodeOwned(sh) + OwnedAll(sh.kids)
  {
  }

  // ----- roots added and taken away -----

  lemma WithoutRoot(m: Memory, roots: seq<Shape>, r: nat)
    requires Rooted(m, roots) && r < |roots|
    ensures Rooted(m, Without(roots, r)) && Held(m, roots[r], NULL, NULL)
    ensures OwnedAll(roots) == OwnedAll(Without(roots, r)) + Owned(roots[r])
  {
    hide Held, Owned;
    OwnedAt(roots, r);
    var rest := Without(roots, r);
    assert forall i :: 0 <= i < |rest| ==> rest[i] == roots[if i < r then i else i + 1];
  }

  lemma WithRoot(m: Memory, roots: seq<Shape>, x: Shape)
    requires Rooted(m, roots) && Held(m, x, NULL, NULL)
    ensures Rooted(m, roots + [x]) && OwnedAll(roots + [x]) == OwnedAll(roots) + Owned(x)
  {
    hide Held, Owned;
    OwnedConcat(roots, [x]);
    OwnedOne(x);
  }

  lemma OwnedOne(c: Shape)
    ensures OwnedAll([c]) == Owned(c)
  {
    hide Owned;
    assert [c][1..] == [];
  }

  /** Cells are added for a new root. */
  lemma NewRoot(m: Memory, m': Memory, roots: seq<Shape>, x: Shape, lost: multiset<Ptr>)
    requires Sound(m, roots, lost) && Held(m', x, NULL, NULL) && Keys(m') == Keys(m) + Owned(x) && NULL !in m'
    requires forall p :: p in m ==> p in m' && m'[p] == m[p]
    ensures Sound(m', roots + [x], lost)
  {
    hide Held, Owned, OwnedAll;
    RootedFrame(m, m', roots);
    WithRoot(m', roots, x);
  }

  /** A root's cells are freed. */
  lemma RootFreed(m: Memory, m': Memory, roots: seq<Shape>, r: nat, lost: multiset<Ptr>)
    requires Sound(m, roots, lost) && r < |roots| && Freed(m, m', Owned(roots[r]))
    ensures Sound(m', Without(roots, r), lost)
  {
    hide Held, Owned, OwnedAll, Rooted;
    WithoutRoot(m, roots, r);
    FreedSame(m, m', Owned(roots[r]), OwnedAll(Without(roots, r)));
    RootedFrame(m, m', Without(roots, r));
  }
}
