/** cJSON_Duplicate: an equal copy in memory of its own, without references. */
module TreeCopy {
  import opened Wrappers
  import opened JsonNumbers
  import opened TreeShapes
  import opened TreeForest
  import opened TreeLinks
  import opened TreeItems

  /** What an item says, wherever it is and whoever owns it. */
  datatype Meaning = Meaning(kind: Kind, number: Decimal, value: Option<string>, name: Option<string>,
                             kids: seq<Meaning>)

  function Said(t: Text): Option<string> {
    match t case NoText => None case Text(_, s) => Some(s)
  }

  function MeaningOf(v: Shape): Meaning
    decreases v
  {
    Meaning(v.kind, v.number, Said(v.value), Said(v.name), Meanings(v.kids))
  }

  function Meanings(vs: seq<Shape>): (ms: seq<Meaning>)
    ensures |ms| == |vs|
    decreases vs
  {
    if vs == [] then [] else [MeaningOf(vs[0])] + Meanings(vs[1..])
  }

  /** What following the pointers from an item shows, through references too. */
  ghost predicate Seen(m: Memory, v: Shape)
    decreases v, 2
  {
    && v.p != NULL && IsItem(m, v.p) && m[v.p].item.kind == v.kind && m[v.p].item.number == v.number
    && m[v.p].item.value == Addr(v.value) && m[v.p].item.name == Addr(v.name) && m[v.p].item.child == Head(v.kids)
    && TextHeld(m, v.value) && TextHeld(m, v.name) && SeenAll(m, v.kids)
  }

  ghost predicate SeenBefore(m: Memory, v: Shape, next: Ptr)
    decreases v, 3
  {
    Seen(m, v) && m[v.p].item.next == next
  }

  ghost predicate SeenAll(m: Memory, vs: seq<Shape>)
    decreases vs, 0
  {
    forall i :: 0 <= i < |vs| ==> SeenBefore(m, vs[i], After(vs, i))
  }

  /** Nothing that was there has changed. */
  ghost predicate Grown(m: Memory, m': Memory) {
    forall p :: p in m ==> p in m' && m'[p] == m[p]
  }

  lemma {:induction false} SeenFrame(m: Memory, m': Memory, v: Shape)
    requires Seen(m, v) && Grown(m, m')
    ensures Seen(m', v)
    decreases v, 1
  {
    SeenAllFrame(m, m', v.kids);
  }

  lemma {:induction false} SeenAllFrame(m: Memory, m': Memory, vs: seq<Shape>)
    requires SeenAll(m, vs) && Grown(m, m')
    ensures SeenAll(m', vs)
    decreases vs, 0
  {
    hide Seen;
    forall i | 0 <= i < |vs|
      ensures SeenBefore(m', vs[i], After(vs, i))
    {
      assert SeenBefore(m, vs[i], After(vs, i));
      SeenIsItem(m, vs[i]);
      SeenFrame(m, m', vs[i]);
    }
  }

  lemma SeenIsItem(m: Memory, v: Shape)
    requires Seen(m, v)
    ensures IsItem(m, v.p) && v.p != NULL
  {
  }

  /** No reference in the tree. */
  predicate Unshared(sh: Shape)
    decreases sh
  {
    !sh.ref && UnsharedAll(sh.kids)
  }

  predicate UnsharedAll(ss: seq<Shape>)
    decreases ss
  {
    ss == [] || (Unshared(ss[0]) && UnsharedAll(ss[1..]))
  }

  lemma {:induction false} UnsharedAt(ss: seq<Shape>, i: nat)
    requires UnsharedAll(ss) && i < |ss|
    ensures Unshared(ss[i])
  {
    if i > 0 {
      UnsharedAt(ss[1..], i - 1);
    }
  }

  /** A tree without references is what is seen from its root. */
  lemma {:induction false} HeldSeen(m: Memory, sh: Shape, prev: Ptr, next: Ptr)
    requires Held(m, sh, prev, next) && Unshared(sh)
    ensures Seen(m, sh) && m[sh.p].item.next == next
    decreases sh
  {
    forall i | 0 <= i < |sh.kids|
      ensures SeenBefore(m, sh.kids[i], After(sh.kids, i))
    {
      UnsharedAt(sh.kids, i);
      assert Held(m, sh.kids[i], Before(sh.kids, i), After(sh.kids, i));
      HeldSeen(m, sh.kids[i], Before(sh.kids, i), After(sh.kids, i));
    }
  }

  // ----- what is seen through references -----

  /** The children that one sees from each reference of a tree, by the reference's address. */
  type Views = map<Ptr, seq<Shape>>

  /** The tree with what is seen below its references in its place. */
  function Resolved(sh: Shape, views: Views): (v: Shape)
    ensures v.p == sh.p && v.value == sh.value && v.name == sh.name && v.kind == sh.kind && v.number == sh.number
    decreases sh, 1
  {
    if !sh.ref then sh.(kids := ResolvedAll(sh.kids, views))
    else sh.(kids := if sh.p in views then views[sh.p] else [])
  }

  function ResolvedAll(ss: seq<Shape>, views: Views): (vs: seq<Shape>)
    ensures |vs| == |ss| && forall i :: 0 <= i < |ss| ==> vs[i] == Resolved(ss[i], views)
    decreases ss, 0
  {
    if ss == [] then [] else [Resolved(ss[0], views)] + ResolvedAll(ss[1..], views)
  }

  /** No reference of the tree dangles: the string and the children that it shares are there to see. */
  ghost predicate Shown(m: Memory, sh: Shape, views: Views)
    decreases sh
  {
    if sh.ref then
      sh.p in views && SeenAll(m, views[sh.p]) && Head(views[sh.p]) == sh.borrowed && TextHeld(m, sh.value)
    else
      forall i :: 0 <= i < |sh.kids| ==> Shown(m, sh.kids[i], views)
  }

  /** From the root of any tree whose references do not dangle one sees the tree, and through the references. */
  lemma {:induction false} TreeSeen(m: Memory, sh: Shape, prev: Ptr, next: Ptr, views: Views)
    requires Held(m, sh, prev, next) && Shown(m, sh, views)
    ensures Seen(m, Resolved(sh, views)) && m[sh.p].item.next == next
    decreases sh
  {
    hide Seen, SeenBefore;
    var v := Resolved(sh, views);
    if !sh.ref {
      forall i | 0 <= i < |v.kids|
        ensures SeenBefore(m, v.kids[i], After(v.kids, i))
      {
        assert Held(m, sh.kids[i], Before(sh.kids, i), After(sh.kids, i)) && Shown(m, sh.kids[i], views);
        TreeSeen(m, sh.kids[i], Before(sh.kids, i), After(sh.kids, i), views);
        SeenThere(m, v.kids[i], After(v.kids, i));
      }
    }
    NodeSeen(m, sh, prev, next, v.kids);
  }

  lemma SeenThere(m: Memory, v: Shape, next: Ptr)
    requires Seen(m, v) && m[v.p].item.next == next
    ensures SeenBefore(m, v, next)
  {
  }

  lemma NodeSeen(m: Memory, sh: Shape, prev: Ptr, next: Ptr, kids: seq<Shape>)
    requires NodeHeld(m, sh, prev, next) && SeenAll(m, kids) && TextHeld(m, sh.value)
    requires Head(kids) == if sh.ref then sh.borrowed else Head(sh.kids)
    ensures Seen(m, sh.(kids := kids)) && m[sh.p].item.next == next
  {
    hide SeenAll;
  }

  lemma {:induction false} UnsharedAppend(ss: seq<Shape>, x: Shape)
    requires UnsharedAll(ss) && Unshared(x)
    ensures UnsharedAll(ss + [x])
  {
    if ss != [] {
      UnsharedAppend(ss[1..], x);
      assert (ss + [x])[1..] == ss[1..] + [x];
    }
  }

  lemma {:induction false} MeaningsAppend(ss: seq<Shape>, x: Shape)
    ensures Meanings(ss + [x]) == Meanings(ss) + [MeaningOf(x)]
  {
    hide MeaningOf;
    if ss != [] {
      MeaningsAppend(ss[1..], x);
      assert (ss + [x])[1..] == ss[1..] + [x];
    }
  }

  /** A new tree stands beside what was there. */
  ghost predicate Beside(m: Memory, m': Memory, d: Shape) {
    Grown(m, m') && Held(m', d, NULL, NULL) && Keys(m') == Keys(m) + Owned(d) && NULL !in m' && Unshared(d)
  }

  lemma BesideTwice(m: Memory, m': Memory, m'': Memory, d: Shape, x: Shape)
    requires Beside(m, m', d) && Beside(m', m'', x)
    ensures Grown(m, m'') && Joinable(m'', d, x)
  {
    hide Owned;
    assert Same(m', m'', Owned(d)) by {
      forall p | p in Owned(d)
        ensures p in m'
      {
        OnceOwned(m', Owned(d), p);
      }
    }
    HeldFrame(m', m'', d, NULL, NULL);
  }

  /** A new tree takes another as its last child. */
  lemma BesideJoined(m: Memory, m1: Memory, m2: Memory, d: Shape, x: Shape)
    requires Joinable(m1, d, x) && Grown(m, m1) && Keys(m1) == Keys(m) + Owned(d) + Owned(x) && NULL !in m1
    requires m1[d.p].item.prev == NULL && m1[d.p].item.next == NULL && Unshared(d) && Unshared(x)
    requires Relinked(m1, m2, d, d.kids + [x], [])
    ensures Beside(m, m2, d.(kids := d.kids + [x]))
  {
    hide Held, Owned, OwnedAll, NodeOwned, HeldWhere, Tops;
    hide ChangedOnly, Linked, AllWhere, Joinable, Unshared, UnsharedAll;
    var kids := d.kids + [x];
    RelinkedHeld(m1, m2, d, kids, []);
    JoinedOwned(m1, d, x);
    OwnedParts(d);
    OwnedParts(d.(kids := kids));
    NodeOwnedOf(d, kids);
    assert Unshared(d.(kids := kids)) by {
      UnsharedJoin(d, x);
    }
    TopsOwned(kids);
    OwnsItself(d);
    GrownPast(m, m1, m2, d, x);
  }

  lemma UnsharedJoin(d: Shape, x: Shape)
    requires Unshared(d) && Unshared(x)
    ensures Unshared(d.(kids := d.kids + [x]))
  {
    UnsharedAppend(d.kids, x);
  }

  lemma GrownPast(m: Memory, m1: Memory, m2: Memory, d: Shape, x: Shape)
    requires Grown(m, m1) && Keys(m1) == Keys(m) + Owned(d) + Owned(x)
    requires ChangedOnly(m1, m2, multiset{d.p} + Tops(d.kids + [x]) + Tops([]))
    requires Tops(d.kids + [x]) <= OwnedAll(d.kids + [x])
    requires OwnedAll(d.kids + [x]) + NodeOwned(d) == Owned(d) + Owned(x)
    requires d.p in NodeOwned(d)
    ensures Grown(m, m2) && Keys(m2) == Keys(m1) && (NULL !in m1 ==> NULL !in m2)
  {
    hide Owned, OwnedAll, NodeOwned;
    var changed := multiset{d.p} + Tops(d.kids + [x]) + Tops([]);
    forall p | p in m
      ensures p !in changed
    {
      OnceOwned(m1, Keys(m) + (Owned(d) + Owned(x)), p);
      assert p in Keys(m);
      assert p !in Owned(d) + Owned(x);
      assert p !in OwnedAll(d.kids + [x]) + NodeOwned(d);
    }
  }

  // ----- the code -----

  function WithValue(m: Memory, p: Ptr, q: Ptr): Memory
    requires IsItem(m, p)
  {
    m[p := ItemCell(m[p].item.(value := q))]
  }

  function WithName(m: Memory, p: Ptr, q: Ptr): Memory
    requires IsItem(m, p)
  {
    m[p := ItemCell(m[p].item.(name := q))]
  }

  /** The leaf with a string, and the memory with it. */
  function Texted(x: Shape, q: Ptr, s: string, isName: bool): Shape {
    if isName then x.(name := Text(q, s)) else x.(value := Text(q, s))
  }

  function TextedCells(m: Memory, p: Ptr, q: Ptr, s: string, isName: bool): Memory
    requires IsItem(m, p) && q !in m
  {
    if isName then WithName(m[q := TextCell(s)], p, q) else WithValue(m[q := TextCell(s)], p, q)
  }

  lemma LeafTextHeld(m: Memory, x: Shape, q: Ptr, s: string, isName: bool)
    requires Held(m, x, NULL, NULL) && x.kids == [] && !x.ref && q != NULL && q !in m && IsItem(m, x.p)
    requires Owned(x) <= Keys(m)
    requires if isName then x.name == NoText else x.value == NoText
    ensures NodeHeld(TextedCells(m, x.p, q, s, isName), Texted(x, q, s, isName), NULL, NULL)
  {
    LeafApart(m, x);
  }

  lemma LeafTextOwned(x: Shape, q: Ptr, s: string, isName: bool)
    requires x.kids == [] && !x.ref && (if isName then x.name == NoText else x.value == NoText)
    ensures Owned(Texted(x, q, s, isName)) == Owned(x) + multiset{q}
  {
    NoneOwned();
  }

  lemma LeafTextKeys(m: Memory, p: Ptr, q: Ptr, s: string, isName: bool)
    requires IsItem(m, p) && q !in m && q != NULL
    ensures var m' := TextedCells(m, p, q, s, isName);
            && Keys(m') == Keys(m) + multiset{q} && (NULL !in m ==> NULL !in m')
            && forall o :: o in m && o != p ==> o in m' && m'[o] == m[o]
  {
  }

  /** A leaf beside the memory is given a string of its own. */
  lemma LeafText(m: Memory, m1: Memory, x: Shape, q: Ptr, s: string, isName: bool)
    requires Beside(m, m1, x) && x.kids == [] && q != NULL && q !in m1 && IsItem(m1, x.p)
    requires if isName then x.name == NoText else x.value == NoText
    ensures Beside(m, TextedCells(m1, x.p, q, s, isName), Texted(x, q, s, isName))
  {
    hide Owned, TextedCells, NodeHeld, Grown, Keys;
    var m2, y := TextedCells(m1, x.p, q, s, isName), Texted(x, q, s, isName);
    assert Owned(x) <= Keys(m1);
    LeafTextHeld(m1, x, q, s, isName);
    LeafTextOwned(x, q, s, isName);
    LeafTextKeys(m1, x.p, q, s, isName);
    LeafHeld(m2, y);
    NotOld(m, m1, x);
    GrownPastNode(m, m1, m2, x.p);
    assert Keys(m) + Owned(x) + multiset{q} == Keys(m) + Owned(y);
  }

  lemma NotOld(m: Memory, m1: Memory, x: Shape)
    requires Keys(m1) == Keys(m) + Owned(x)
    ensures x.p !in m
  {
    OwnsItself(x);
    hide Owned;
    OnceOwned(m1, Keys(m) + Owned(x), x.p);
    assert x.p in Owned(x);
    assert x.p in m <==> x.p in Keys(m);
  }

  lemma GrownPastNode(m: Memory, m1: Memory, m2: Memory, p: Ptr)
    requires Grown(m, m1) && p !in m && forall o :: o in m1 && o != p ==> o in m2 && m2[o] == m1[o]
    ensures Grown(m, m2)
  {
  }

  lemma LeafApart(m: Memory, x: Shape)
    requires Owned(x) <= Keys(m)
    ensures x.name.Text? ==> x.name.p != x.p
    ensures !x.ref && x.value.Text? ==> x.value.p != x.p
  {
    OnceOwned(m, Owned(x), x.p);
    OwnsItself(x);
  }

  lemma NewLeaf(m: Memory, p: Ptr, kind: Kind, number: Decimal)
    requires p != NULL && p !in m && NULL !in m
    ensures Beside(m, m[p := ItemCell(NEW.(kind := kind, number := number))], Leaf(p, kind, number, NoText))
  {
    var m' := m[p := ItemCell(NEW.(kind := kind, number := number))];
    assert Keys(m') == Keys(m) + multiset{p};
    LeafHeld(m', Leaf(p, kind, number, NoText));
  }

  /** The first part of cJSON_Duplicate: a new item with the type, the numbers and copies of the strings. */
  method CopyNode(store: Store, item: Ptr, ghost v: Shape) returns (p: Ptr, ghost d: Shape)
    requires Seen(store.cells, v) && item == v.p && NULL !in store.cells
    modifies store`cells
    ensures Beside(old(store.cells), store.cells, d) && d.p == p && d.kids == []
    ensures MeaningOf(d) == MeaningOf(v.(kids := []))
  {
    ghost var m0 := store.cells;
    var it := store.cells[item].item;
    p := store.Allocate(ItemCell(NEW));
    store.cells := store.cells[p := ItemCell(NEW.(kind := it.kind, number := it.number))];
    NewLeaf(m0, p, it.kind, it.number);
    assert store.cells == m0[p := ItemCell(NEW.(kind := it.kind, number := it.number))];
    d := Leaf(p, it.kind, it.number, NoText);
    if it.value != NULL {
      d := CopyText(store, p, it.value, false, m0, d, v.value);
    }
    if it.name != NULL {
      d := CopyText(store, p, it.name, true, m0, d, v.name);
    }
  }

  /** cJSON_strdup of a string of the original. */
  method CopyText(store: Store, p: Ptr, text: Ptr, isName: bool, ghost m0: Memory, ghost x: Shape, ghost t: Text)
    returns (ghost d: Shape)
    requires Beside(m0, store.cells, x) && x.p == p && x.kids == [] && TextHeld(m0, t) && t.Text? && text == t.p
    requires if isName then x.name == NoText else x.value == NoText
    modifies store`cells
    ensures Beside(m0, store.cells, d) && d.p == p && d.kids == []
    ensures d == if isName then x.(name := Text(Addr(d.name), t.s)) else x.(value := Text(Addr(d.value), t.s))
    ensures if isName then d.name.Text? else d.value.Text?
  {
    ghost var m1 := store.cells;
    assert IsItem(m1, p);
    var s := store.cells[text].text;
    var q := store.Allocate(TextCell(s));
    LeafText(m0, m1, x, q, s, isName);
    hide Held, Owned, Beside;
    if isName {
      store.cells := WithName(store.cells, p, q);
    } else {
      store.cells := WithValue(store.cells, p, q);
    }
    d := Texted(x, q, s, isName);
  }

  /** One turn of the loop of cJSON_Duplicate, after the copy of the child. */
  method AttachCopy(store: Store, p: Ptr, last: Ptr, child: Ptr, ghost m0: Memory, ghost m1: Memory,
                    ghost d: Shape, ghost x: Shape)
    requires Beside(m0, m1, d) && Beside(m1, store.cells, x) && d.p == p && x.p == child && last == Last(d.kids)
    modifies store`cells
    ensures Beside(m0, store.cells, d.(kids := d.kids + [x]))
  {
    ghost var m2 := store.cells;
    BesideTwice(m0, m1, m2, d, x);
    AddedApart(m2, d, x);
    AddedRelinks(m2, d, x);
    HeldNeighbours(m1, d, NULL, NULL);
    assert m2[d.p] == m1[d.p];
    hide Held, HeldWhere, Owned, Joinable, Relinked, Apart;
    if last != NULL {
      store.cells := WithNext(store.cells, last, child);
      store.cells := WithPrev(store.cells, child, last);
    } else {
      store.cells := WithChild(store.cells, p, child);
    }
    BesideJoined(m0, m2, store.cells, d, x);
  }

  lemma SeenHead(m: Memory, v: Shape)
    requires Seen(m, v)
    ensures IsItem(m, v.p) && m[v.p].item.child == Head(v.kids) && (Head(v.kids) == NULL <==> v.kids == [])
  {
    if v.kids != [] {
      assert SeenBefore(m, v.kids[0], After(v.kids, 0));
      SeenIsItem(m, v.kids[0]);
    }
  }

  lemma Bare(v: Shape)
    ensures v.(kids := v.kids[..0]) == v.(kids := []) && v.(kids := v.kids[..|v.kids|]) == v
  {
    assert v.kids[..0] == [] && v.kids[..|v.kids|] == v.kids;
  }

  lemma KidNotNull(m: Memory, v: Shape, k: nat)
    requires Seen(m, v)
    ensures k < |v.kids| ==> v.kids[k].p != NULL
  {
    if k < |v.kids| {
      KidSeen(m, v, k);
      SeenIsItem(m, v.kids[k]);
    }
  }

  lemma KidSeen(m: Memory, v: Shape, k: nat)
    requires Seen(m, v) && k < |v.kids|
    ensures Seen(m, v.kids[k]) && IsItem(m, v.kids[k].p) && m[v.kids[k].p].item.next == After(v.kids, k)
    ensures After(v.kids, k) == NULL <==> k == |v.kids| - 1
  {
    assert SeenBefore(m, v.kids[k], After(v.kids, k));
    SeenIsItem(m, v.kids[k]);
    if k < |v.kids| - 1 {
      assert SeenBefore(m, v.kids[k + 1], After(v.kids, k + 1));
      SeenIsItem(m, v.kids[k + 1]);
    }
  }

  lemma {:induction false} MeaningNext(v: Shape, d: Shape, k: nat, x: Shape)
    requires k < |v.kids| && MeaningOf(d) == MeaningOf(v.(kids := v.kids[..k])) && MeaningOf(x) == MeaningOf(v.kids[k])
    ensures MeaningOf(d.(kids := d.kids + [x])) == MeaningOf(v.(kids := v.kids[..k + 1]))
  {
    MeaningsAppend(d.kids, x);
    MeaningsAppend(v.kids[..k], v.kids[k]);
    assert v.kids[..k + 1] == v.kids[..k] + [v.kids[k]];
  }

  /** One turn of the loop of cJSON_Duplicate. */
  method CopyChild(store: Store, p: Ptr, cptr: Ptr, nptr: Ptr, ghost m0: Memory, ghost v: Shape,
                   ghost d: Shape, ghost k: nat)
    returns (next: Ptr, last: Ptr, ghost d': Shape)
    requires Seen(m0, v) && k < |v.kids| && cptr == v.kids[k].p
    requires Beside(m0, store.cells, d) && d.p == p && nptr == Last(d.kids)
    requires MeaningOf(d) == MeaningOf(v.(kids := v.kids[..k]))
    modifies store`cells
    ensures next == After(v.kids, k) && last == Last(d'.kids) && Beside(m0, store.cells, d') && d'.p == p
    ensures MeaningOf(d') == MeaningOf(v.(kids := v.kids[..k + 1]))
    decreases v, 0
  {
    hide Held, HeldWhere, Owned, Seen, MeaningOf, Unshared;
    ghost var m1 := store.cells;
    KidSeen(m0, v, k);
    SeenFrame(m0, m1, v.kids[k]);
    ghost var x;
    last, x := DuplicateTree(store, cptr, true, v.kids[k]);
    AttachCopy(store, p, nptr, last, m0, m1, d, x);
    MeaningNext(v, d, k, x);
    d' := d.(kids := d.kids + [x]);
    next := store.cells[cptr].item.next;
  }

  /** cJSON_Duplicate, before the copy joins the trees. */
  method DuplicateTree(store: Store, item: Ptr, recurse: bool, ghost v: Shape) returns (p: Ptr, ghost d: Shape)
    requires Seen(store.cells, v) && item == v.p && NULL !in store.cells
    modifies store`cells
    ensures Beside(old(store.cells), store.cells, d) && d.p == p
    ensures MeaningOf(d) == MeaningOf(if recurse then v else v.(kids := []))
    decreases v, 1
  {
    hide Held, HeldWhere, Owned;
    ghost var m0 := store.cells;
    p, d := CopyNode(store, item, v);
    if !recurse {
      return;
    }
    SeenIsItem(m0, v);
    var cptr := store.cells[item].item.child;
    SeenHead(m0, v);
    Bare(v);
    hide Seen, MeaningOf;
    var nptr := NULL;
    ghost var k: nat := 0;
    while cptr != NULL
      invariant k <= |v.kids| && cptr == (if k < |v.kids| then v.kids[k].p else NULL)
      invariant Beside(m0, store.cells, d) && d.p == p && nptr == Last(d.kids)
      invariant MeaningOf(d) == MeaningOf(v.(kids := v.kids[..k]))
      decreases |v.kids| - k
    {
      cptr, nptr, d := CopyChild(store, p, cptr, nptr, m0, v, d, k);
      k := k + 1;
    }
    KidNotNull(m0, v, k);
  }

  /**
   cJSON_Duplicate of what is seen from an item: a new tree of its own, equal and without references;
   everything that was there stays as it was.
   */
  method Duplicate(store: Store, item: Ptr, recurse: bool, ghost v: Shape) returns (p: Ptr, ghost d: Shape)
    requires store.Valid() && (item != NULL ==> Seen(store.cells, v) && v.p == item)
    modifies store`cells, store`forest
    ensures store.Valid() && Grown(old(store.cells), store.cells)
    ensures item == NULL ==> p == NULL && store.cells == old(store.cells) && store.forest == old(store.forest)
    ensures item != NULL ==>
              && p == d.p && store.forest == old(store.forest) + [d]
              && Keys(store.cells) == Keys(old(store.cells)) + Owned(d)
              && Unshared(d) && MeaningOf(d) == MeaningOf(if recurse then v else v.(kids := []))
  {
    d := v;
    if item == NULL {
      return NULL, d;
    }
    hide Held, Owned, OwnedAll, Rooted, Seen, MeaningOf, Unshared;
    ghost var m0 := store.cells;
    p, d := DuplicateTree(store, item, recurse, v);
    NewRoot(m0, store.cells, store.forest, d, store.lost);
    store.forest := store.forest + [d];
  }

  /**
   From a reference one sees what one sees from the item that it refers to, which may have references
   below it, or be one itself.
   */
  lemma ReferenceSeen(m: Memory, f: Shape, prev: Ptr, next: Ptr, v: Shape, p: Ptr, prev': Ptr, next': Ptr)
    requires NodeHeld(m, f, prev, next) && Seen(m, v) && v.p == f.p && v.value == f.value
    requires NodeHeld(m, Reference(p, f), prev', next')
    ensures Seen(m, Reference(p, f).(kids := v.kids))
    ensures MeaningOf(Reference(p, f).(kids := v.kids)) == MeaningOf(v.(name := NoText))
  {
    SeenParts(m, v);
    hide SeenBefore, SeenAll;
  }

  lemma SeenParts(m: Memory, v: Shape)
    requires Seen(m, v)
    ensures TextHeld(m, v.value) && SeenAll(m, v.kids) && IsItem(m, v.p)
    ensures m[v.p].item.kind == v.kind && m[v.p].item.number == v.number && m[v.p].item.child == Head(v.kids)
  {
  }
}
