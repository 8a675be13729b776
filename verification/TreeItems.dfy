/** The functions of src/cJSON.c that make, link, unlink, copy and free items. */
module TreeItems {
  import opened Wrappers
  import opened JsonNumbers
  import opened TreeShapes
  import opened TreeForest
  import opened TreeLinks

  const ZERO := Decimal(false, 0, 0)

  /** What cJSON_New_Item leaves. */
  const NEW := Item(NULL, NULL, NULL, KFalse, false, NULL, ZERO, NULL)

  function Leaf(p: Ptr, kind: Kind, number: Decimal, value: Text): Shape {
    Shape(p, kind, false, number, value, NoText, [], NULL)
  }

  /** The node that create_reference makes: everything but the name and the neighbours is copied. */
  function Reference(p: Ptr, f: Shape): Shape {
    Shape(p, f.kind, true, f.number, f.value, NoText, [], if f.ref then f.borrowed else Head(f.kids))
  }

  /** cJSON_strcasecmp() == 0, for a name that may be missing. */
  predicate NameIs(name: Text, s: string) {
    name.Text? && |name.s| == |s| && forall i :: 0 <= i < |s| ==> Lower(name.s[i]) == Lower(s[i])
  }

  function Lower(c: char): char {
    if 'A' <= c <= 'Z' then c - 'A' + 'a' else c
  }

  /** The child of the given number: a negative one counts as the first. */
  function Nth(kids: seq<Shape>, which: int): Option<nat> {
    if which < |kids| && |kids| > 0 then Some(if which < 0 then 0 else which) else None
  }

  function Named(kids: seq<Shape>, name: string): (i: nat)
    ensures i <= |kids| && (i < |kids| ==> NameIs(kids[i].name, name))
    ensures forall j :: 0 <= j < i ==> !NameIs(kids[j].name, name)
  {
    if kids == [] || NameIs(kids[0].name, name) then 0 else 1 + Named(kids[1..], name)
  }

  /** The same text but for the case of its ASCII letters. */
  predicate Recased(a: string, b: string) {
    |a| == |b| && forall i :: 0 <= i < |a| ==> SameLetter(a[i], b[i])
  }

  predicate SameLetter(a: char, b: char) {
    || a == b
    || (65 <= a as int <= 90 && b as int == a as int + 32)
    || (65 <= b as int <= 90 && a as int == b as int + 32)
  }

  /** Names are compared up to the case of their letters, and only that. */
  lemma NamesRecased(name: Text, s: string)
    ensures NameIs(name, s) <==> name.Text? && Recased(name.s, s)
  {
    if name.Text? && |name.s| == |s| {
      forall i | 0 <= i < |s|
        ensures Lower(name.s[i]) == Lower(s[i]) <==> SameLetter(name.s[i], s[i])
      {
      }
    }
  }

  /** A name and a recasing of it select the same child. */
  lemma {:induction false} RecasedSelects(kids: seq<Shape>, a: string, b: string)
    requires Recased(a, b)
    ensures Named(kids, a) == Named(kids, b)
  {
    if kids != [] {
      hide NameIs, Recased;
      RecasedSelects(kids[1..], a, b);
      RecasedTwice(kids[0].name, a, b);
    }
  }

  lemma RecasedTwice(name: Text, a: string, b: string)
    requires Recased(a, b)
    ensures NameIs(name, a) <==> NameIs(name, b)
  {
    if name.Text? && |name.s| == |a| {
      assert forall i :: 0 <= i < |a| ==> SameLetter(a[i], b[i]) && Lower(a[i]) == Lower(b[i]);
    }
  }

  /** A number below the count selects that child, a negative one the first, if there is one. */
  lemma NthSelects(kids: seq<Shape>, which: int)
    ensures 0 <= which < |kids| ==> Nth(kids, which) == Some(which)
    ensures which < 0 < |kids| ==> Nth(kids, which) == Some(0)
    ensures which >= |kids| || kids == [] ==> Nth(kids, which) == None
  {
  }

  // ----- what the calls do to the trees -----

  function KidsOf(roots: seq<Shape>, list: Ptr): seq<Shape>
    requires FindAll(roots, list).Some?
  {
    FindAll(roots, list).value.kids
  }

  /** A node, not a reference, is in the trees. */
  predicate Container(roots: seq<Shape>, list: Ptr) {
    FindAll(roots, list).Some? && !FindAll(roots, list).value.ref
  }

  /** Root r becomes the last child of the list. */
  function Added(roots: seq<Shape>, list: Ptr, r: nat): seq<Shape>
    requires r < |roots| && Container(Without(roots, r), list)
  {
    var rest := Without(roots, r);
    EditAll(rest, list, KidsOf(rest, list) + [roots[r]])
  }

  /** The list's i-th child becomes a root. */
  function Detached(roots: seq<Shape>, list: Ptr, i: nat): seq<Shape>
    requires Container(roots, list) && i < |KidsOf(roots, list)|
  {
    EditAll(roots, list, Without(KidsOf(roots, list), i)) + [KidsOf(roots, list)[i]]
  }

  /** Root r takes the place of the list's i-th child. */
  function Replaced(roots: seq<Shape>, list: Ptr, i: nat, r: nat): seq<Shape>
    requires r < |roots| && Container(Without(roots, r), list) && i < |KidsOf(Without(roots, r), list)|
  {
    var rest := Without(roots, r);
    EditAll(rest, list, KidsOf(rest, list)[i := roots[r]])
  }

  /** A container and a root outside its tree can be joined. */
  lemma JoinableIn(m: Memory, roots: seq<Shape>, lost: multiset<Ptr>, list: Ptr, r: nat)
    requires Sound(m, roots, lost) && r < |roots| && Container(Without(roots, r), list)
    ensures var rest := Without(roots, r);
            && Rooted(m, rest) && OwnedAll(rest) + OwnedAll([roots[r]]) <= Keys(m)
            && Joinable(m, FindAll(rest, list).value, roots[r])
            && FindAll(rest, list).value.p == list
  {
    hide Held, Owned, OwnedAll, Rooted, FindAll, HeldWhere;
    var rest := Without(roots, r);
    WithoutRoot(m, roots, r);
    OwnedOne(roots[r]);
    FindAllOwned(rest, list);
    OnceOwned(m, OwnedAll(rest), list);
    RootHeld(m, rest, list);
    BagSum(Owned(FindAll(rest, list).value), Owned(roots[r]), OwnedAll(rest), Owned(roots[r]));
  }

  lemma ContainerHeld(m: Memory, roots: seq<Shape>, lost: multiset<Ptr>, list: Ptr)
    requires Sound(m, roots, lost) && FindAll(roots, list).Some?
    ensures var f := FindAll(roots, list).value;
            HeldWhere(m, f) && f.p == list && Owned(f) <= Keys(m) && IsItem(m, list)
  {
    hide Held, Owned, OwnedAll, Rooted, FindAll, HeldWhere;
    FindAllOwned(roots, list);
    OnceOwned(m, OwnedAll(roots), list);
    RootHeld(m, roots, list);
    WhereNotNull(m, FindAll(roots, list).value);
  }

  lemma LeafHeld(m: Memory, x: Shape)
    requires NodeHeld(m, x, NULL, NULL) && x.kids == []
    ensures Held(m, x, NULL, NULL) && Owned(x) == NodeOwned(x)
  {
    NoneOwned();
  }

  lemma StringHeld(m: Memory, m': Memory, p: Ptr, q: Ptr, s: string)
    requires p != NULL && q != NULL && p != q && p !in m && q !in m && NULL !in m
    requires m' == m[p := ItemCell(NEW.(kind := KString, value := q))][q := TextCell(s)]
    ensures var x := Leaf(p, KString, ZERO, Text(q, s));
            Held(m', x, NULL, NULL) && Keys(m') == Keys(m) + Owned(x) && NULL !in m'
  {
    var x := Leaf(p, KString, ZERO, Text(q, s));
    LeafHeld(m', x);
    assert Owned(x) == multiset{p} + multiset{q};
    assert Keys(m') == Keys(m) + multiset{p} + multiset{q};
  }

  lemma HeadNull(m: Memory, f: Shape)
    requires HeldWhere(m, f)
    ensures Head(f.kids) == NULL <==> f.kids == []
  {
    ChainHead(m, f.kids);
  }

  lemma FirstChild(m: Memory, f: Shape)
    requires HeldWhere(m, f) && !f.ref
    ensures m[f.p].item.child == Head(f.kids)
  {
  }

  lemma NthNull(m: Memory, f: Shape, which: int)
    requires HeldWhere(m, f) && !f.ref
    ensures var i := Nth(f.kids, which); i.Some? ==> f.kids[i.value].p != NULL
  {
    var i := Nth(f.kids, which);
    if i.Some? {
      KidWhere(m, f, i.value);
    }
  }

  lemma RootChain(m: Memory, x: Shape)
    requires Held(m, x, NULL, NULL)
    ensures Chain(m, [x]) && Head([x]) == x.p && x.p != NULL
  {
  }

  lemma DetachedSound(m: Memory, m': Memory, roots: seq<Shape>, lost: multiset<Ptr>, list: Ptr, i: nat)
    requires Sound(m, roots, lost) && Container(roots, list) && i < |KidsOf(roots, list)|
    requires var f := FindAll(roots, list).value; Relinked(m, m', f, Without(f.kids, i), [f.kids[i]])
    ensures Sound(m', Detached(roots, list, i), lost) && m'.Keys == m.Keys
  {
    hide Held, HeldWhere, Owned, OwnedAll, Rooted, FindAll, EditAll, Linked, AllWhere, Chain;
    var kids := KidsOf(roots, list);
    OwnedAt(kids, i);
    OwnedOne(kids[i]);
    NoneOwned();
    RelinkedRoots(m, m', roots, list, Without(kids, i), [kids[i]], []);
    ChainOne(m', kids[i]);
    WithRoot(m', EditAll(roots, list, Without(kids, i)), kids[i]);
  }

  lemma ChainOne(m: Memory, x: Shape)
    requires Chain(m, [x])
    ensures Held(m, x, NULL, NULL)
  {
    assert Held(m, [x][0], Before([x], 0), After([x], 0));
  }

  lemma ReplacedRoots(m: Memory, m': Memory, roots: seq<Shape>, lost: multiset<Ptr>, list: Ptr, i: nat, r: nat)
    requires Sound(m, roots, lost) && r < |roots| && Container(Without(roots, r), list)
    requires i < |KidsOf(Without(roots, r), list)|
    requires var f := FindAll(Without(roots, r), list).value; Relinked(m, m', f, f.kids[i := roots[r]], [f.kids[i]])
    ensures var c, roots' := KidsOf(Without(roots, r), list)[i], Replaced(roots, list, i, r);
            && Rooted(m', roots') && Chain(m', [c]) && Head([c]) == c.p
            && m'.Keys == m.Keys && Keys(m') == OwnedAll(roots') + Owned(c) + lost && NULL !in m'
  {
    hide Held, HeldWhere, Owned, OwnedAll, Rooted, FindAll, EditAll, Linked, AllWhere, Chain;
    var rest := Without(roots, r);
    var kids := KidsOf(rest, list);
    JoinableIn(m, roots, lost, list, r);
    OwnedOne(kids[i]);
    OwnedOne(roots[r]);
    ReplacedOwned(m, FindAll(rest, list).value, i, roots[r]);
    RelinkedRoots(m, m', rest, list, kids[i := roots[r]], [kids[i]], [roots[r]]);
    WithoutRoot(m, roots, r);
  }

  lemma ReplacedSound(m: Memory, m': Memory, roots: seq<Shape>, lost: multiset<Ptr>, c: Shape)
    requires Rooted(m, roots) && Keys(m) == OwnedAll(roots) + Owned(c) + lost && NULL !in m && Freed(m, m', Owned(c))
    ensures Sound(m', roots, lost)
  {
    hide Held, Owned, OwnedAll, Rooted, Same;
    FreedSame(m, m', Owned(c), OwnedAll(roots));
    RootedFrame(m, m', roots);
    assert OwnedAll(roots) + Owned(c) + lost - Owned(c) == OwnedAll(roots) + lost;
  }

  /** The name that an item points to. */
  predicate NameHeld(m: Memory, c: Ptr) {
    IsItem(m, c) && (m[c].item.name != NULL ==> m[c].item.name in m && m[m[c].item.name].TextCell?)
  }

  function NameOf(m: Memory, c: Ptr): Text
    requires NameHeld(m, c)
  {
    if m[c].item.name == NULL then NoText else Text(m[c].item.name, m[m[c].item.name].text)
  }

  lemma KidName(m: Memory, f: Shape, j: nat)
    requires HeldWhere(m, f) && !f.ref && j < |f.kids|
    ensures NameHeld(m, f.kids[j].p) && NameOf(m, f.kids[j].p) == f.kids[j].name
    ensures m[f.kids[j].p].item.next == After(f.kids, j)
    ensures After(f.kids, j) == NULL <==> j == |f.kids| - 1
  {
    KidWhere(m, f, j);
    assert TextHeld(m, f.kids[j].name);
    if j < |f.kids| - 1 {
      KidWhere(m, f, j + 1);
    }
  }

  lemma {:induction false} NamedIs(kids: seq<Shape>, name: string, i: nat)
    requires i <= |kids| && (i < |kids| ==> NameIs(kids[i].name, name))
    requires forall j :: 0 <= j < i ==> !NameIs(kids[j].name, name)
    ensures Named(kids, name) == i
  {
    if i > 0 {
      NamedIs(kids[1..], name, i - 1);
    }
  }

  /** A root's name is about to be overwritten. */
  lemma NameForgotten(m: Memory, roots: seq<Shape>, lost: multiset<Ptr>, r: nat)
    requires Sound(m, roots, lost) && r < |roots|
    ensures NameGone(m, roots, lost + TextOwned(roots[r].name), r)
  {
    hide Owned, OwnedAll, Rooted, NodeOwned, TextOwned;
    WithoutRoot(m, roots, r);
    OwnedName(roots[r]);
    RootFacts(m, roots[r]);
  }

  lemma RootItem(m: Memory, roots: seq<Shape>, lost: multiset<Ptr>, r: nat)
    requires Sound(m, roots, lost) && r < |roots|
    ensures IsItem(m, roots[r].p) && m[roots[r].p].item == ItemOf(roots[r], NULL, NULL)
  {
    WithoutRoot(m, roots, r);
    RootFacts(m, roots[r]);
  }

  lemma RenamedIsKept(m: Memory, roots: seq<Shape>, lost: multiset<Ptr>, r: nat)
    requires NameGone(m, roots, lost, r)
    ensures IsItem(m, roots[r].p) && m[roots[r].p].item == ItemOf(roots[r], NULL, NULL)
  {
  }

  lemma KeysRenamed(m0: Memory, m1: Memory, m2: Memory, ps: multiset<Ptr>, p: Ptr)
    requires Freed(m0, m1, ps) && Keys(m2) == Keys(m1) + multiset{p}
    ensures Keys(m2) == Keys(m0) - ps + multiset{p}
  {
  }

  lemma RenamedIs(m: Memory, x: Shape, p: Ptr, name: string)
    requires IsItem(m, x.p) && m[x.p].item == ItemOf(x, NULL, NULL) && p !in m
    ensures RenamedCells(m, x, Text(p, name))
         == m[p := TextCell(name)][x.p := ItemCell(ItemOf(x, NULL, NULL).(name := p))]
  {
  }

  /** The root without its name. */
  function Nameless(x: Shape): Shape {
    x.(name := NoText)
  }

  lemma OwnedName(x: Shape)
    ensures Owned(x) == Owned(Nameless(x)) + TextOwned(x.name)
  {
    OwnedParts(x);
    OwnedParts(Nameless(x));
    assert NodeOwned(x) == NodeOwned(Nameless(x)) + TextOwned(x.name);
  }

  /** After the old name of root r is freed: the rest is as it was, but the item still points to it. */
  ghost predicate NameGone(m: Memory, roots: seq<Shape>, lost: multiset<Ptr>, r: nat) {
    && r < |roots| && NULL !in m && Rooted(m, Without(roots, r))
    && Keys(m) == OwnedAll(Without(roots, r)) + Owned(Nameless(roots[r])) + lost
    && Nameless(roots[r]).p in m && m[roots[r].p] == ItemCell(ItemOf(roots[r], NULL, NULL))
    && roots[r].p != NULL && Chain(m, roots[r].kids)
    && (if roots[r].ref then roots[r].kids == [] else TextHeld(m, roots[r].value))
  }

  lemma NameFreed(m: Memory, m': Memory, roots: seq<Shape>, lost: multiset<Ptr>, r: nat)
    requires Sound(m, roots, lost) && r < |roots| && Freed(m, m', TextOwned(roots[r].name))
    ensures NameGone(m', roots, lost, r)
  {
    hide Held, Owned, OwnedAll, Rooted, NodeOwned, Same, Chain, TextOwned;
    var x, rest := roots[r], Without(roots, r);
    WithoutRoot(m, roots, r);
    OwnedName(x);
    RootFacts(m, x);
    var kept := OwnedAll(rest) + Owned(Nameless(x)) + lost;
    assert Keys(m) == TextOwned(x.name) + kept;
    FreedSame(m, m', TextOwned(x.name), kept);
    SameLess(m, m', OwnedAll(rest) + Owned(Nameless(x)), kept);
    NamelessSame(m, m', x, rest);
    assert Keys(m') == kept;
    assert NULL !in m';
  }

  lemma RootFacts(m: Memory, x: Shape)
    requires Held(m, x, NULL, NULL)
    ensures x.p in m && x.p != NULL && m[x.p] == ItemCell(ItemOf(x, NULL, NULL)) && (x.ref ==> x.kids == [])
  {
  }

  lemma NamelessSame(m: Memory, m': Memory, x: Shape, rest: seq<Shape>)
    requires Rooted(m, rest) && Held(m, x, NULL, NULL) && Same(m, m', OwnedAll(rest) + Owned(Nameless(x)))
    ensures Rooted(m', rest) && x.p in m' && m'[x.p] == m[x.p] && Chain(m', x.kids)
    ensures !x.ref ==> TextHeld(m', x.value)
  {
    var y := Nameless(x);
    SameLess(m, m', OwnedAll(rest), OwnedAll(rest) + Owned(y));
    RootedFrame(m, m', rest);
    OwnedParts(y);
    SameLess(m, m', OwnedAll(x.kids), OwnedAll(rest) + Owned(y));
    ChainFrame(m, m', x.kids);
    SameLess(m, m', NodeOwned(y), OwnedAll(rest) + Owned(y));
    hide Chain, Rooted, OwnedAll, Owned;
    assert x.p in NodeOwned(y);
    assert !x.ref && x.value.Text? ==> x.value.p in NodeOwned(y);
  }

  /** The item points to a new name. */
  function RenamedCells(m: Memory, x: Shape, name: Text): Memory {
    m[Addr(name) := TextCell(if name.Text? then name.s else [])][x.p := ItemCell(ItemOf(x.(name := name), NULL, NULL))]
  }

  lemma RenamedSame(m: Memory, x: Shape, name: Text, ps: multiset<Ptr>)
    requires name.Text? && name.p !in m && multiset{x.p} + ps <= Keys(m)
    ensures Same(m, RenamedCells(m, x, name), ps)
  {
    forall p | p in ps
      ensures p != x.p && p != name.p
    {
      OnceOwned(m, multiset{x.p} + ps, p);
    }
  }

  lemma RenamedNode(m: Memory, x: Shape, name: Text)
    requires name.Text? && name.p !in m && name.p != NULL && x.p in m && x.p != NULL
    requires NodeOwned(Nameless(x)) <= Keys(m) && (if x.ref then x.kids == [] else TextHeld(m, x.value))
    ensures NodeHeld(RenamedCells(m, x, name), x.(name := name), NULL, NULL)
  {
    var y := Nameless(x);
    OnceOwned(m, NodeOwned(y), x.p);
    assert NodeOwned(y) == multiset{x.p} + ValueOwned(x);
    assert !x.ref && x.value.Text? ==> x.value.p != x.p;
  }

  lemma RenamedKeys(m: Memory, x: Shape, name: Text)
    requires name.Text? && name.p !in m && x.p in m
    ensures Keys(RenamedCells(m, x, name)) == Keys(m) + multiset{name.p}
  {
  }

  lemma Renamed(m: Memory, roots: seq<Shape>, lost: multiset<Ptr>, r: nat, name: Text)
    requires NameGone(m, roots, lost, r) && name.Text? && name.p !in m && name.p != NULL
    ensures Sound(RenamedCells(m, roots[r], name), roots[r := roots[r].(name := name)], lost)
  {
    hide Held, NodeHeld, Chain, OwnedAll, Owned, NodeOwned, RenamedCells, TextHeld, Rooted, Same;
    var x, rest := roots[r], Without(roots, r);
    var m', x', roots' := RenamedCells(m, x, name), x.(name := name), roots[r := x.(name := name)];
    OwnedName(x');
    OwnedParts(Nameless(x));
    OwnsItself(Nameless(x));
    RenamedKeys(m, x, name);
    var top := multiset{x.p};
    assert top <= NodeOwned(Nameless(x));
    RenamedSame(m, x, name, OwnedAll(rest));
    RootedFrame(m, m', rest);
    RenamedSame(m, x, name, OwnedAll(x.kids));
    ChainFrame(m, m', x.kids);
    RenamedNode(m, x, name);
    HeldParts(m', x', NULL, NULL);
    RootsBack(m', roots, r, x');
    assert Without(roots', r) == rest;
    OwnedAt(roots', r);
    assert NULL !in m' by {
      NoNull(m, x, name);
    }
  }

  lemma NoNull(m: Memory, x: Shape, name: Text)
    requires NULL !in m && name.Text? && name.p != NULL && x.p != NULL
    ensures NULL !in RenamedCells(m, x, name)
  {
  }

  lemma RootsBack(m: Memory, roots: seq<Shape>, r: nat, x: Shape)
    requires r < |roots| && Rooted(m, Without(roots, r)) && Held(m, x, NULL, NULL)
    ensures Rooted(m, roots[r := x])
  {
    hide Held;
    var rest, roots' := Without(roots, r), roots[r := x];
    forall i | 0 <= i < |roots'|
      ensures Held(m, roots'[i], NULL, NULL)
    {
      assert i != r ==> roots'[i] == rest[if i < r then i else i - 1];
    }
  }

  lemma AddedSound(m: Memory, m': Memory, roots: seq<Shape>, lost: multiset<Ptr>, list: Ptr, r: nat)
    requires Sound(m, roots, lost) && r < |roots| && Container(Without(roots, r), list)
    requires Relinked(m, m', FindAll(Without(roots, r), list).value, KidsOf(Without(roots, r), list) + [roots[r]], [])
    ensures Sound(m', Added(roots, list, r), lost) && m'.Keys == m.Keys
  {
    hide Held, HeldWhere, Owned, OwnedAll, Rooted, FindAll, EditAll, Linked, AllWhere;
    var rest := Without(roots, r);
    JoinableIn(m, roots, lost, list, r);
    OwnedConcat(KidsOf(rest, list), [roots[r]]);
    NoneOwned();
    RelinkedRoots(m, m', rest, list, KidsOf(rest, list) + [roots[r]], [], [roots[r]]);
    WithoutRoot(m, roots, r);
    OwnedOne(roots[r]);
  }

  lemma AddableSound(m: Memory, roots: seq<Shape>, lost: multiset<Ptr>, list: Ptr, r: nat)
    requires Sound(m, roots, lost) && r < |roots| && Container(Without(roots, r), list)
    ensures var f := FindAll(Without(roots, r), list).value;
            && Joinable(m, f, roots[r]) && f.p == list && NULL !in m && IsItem(m, list) && IsItem(m, roots[r].p)
            && (f.kids != [] ==> IsItem(m, Last(f.kids)))
            && Sound(AddedCells(m, list, Last(f.kids), roots[r].p), Added(roots, list, r), lost)
            && Keys(AddedCells(m, list, Last(f.kids), roots[r].p)) == Keys(m)
  {
    hide Held, HeldWhere, Rooted, Joinable, Relinked, FindAll, EditAll, OwnedAll, AddedCells;
    var f := FindAll(Without(roots, r), list).value;
    JoinableIn(m, roots, lost, list, r);
    AddedRelinks(m, f, roots[r]);
    AddedSound(m, AddedCells(m, list, Last(f.kids), roots[r].p), roots, lost, list, r);
  }

  lemma RenamedSound(m0: Memory, m1: Memory, roots: seq<Shape>, lost: multiset<Ptr>, r: nat, name: Text)
    requires NameGone(m1, roots, lost, r) && Freed(m0, m1, TextOwned(roots[r].name))
    requires name.Text? && name.p !in m1 && name.p != NULL
    ensures var m2 := RenamedCells(m1, roots[r], name);
            && Sound(m2, roots[r := roots[r].(name := name)], lost)
            && Keys(m2) == Keys(m0) - TextOwned(roots[r].name) + multiset{name.p}
  {
    RenamedIsKept(m1, roots, lost, r);
    hide NameGone, RenamedCells, Sound, Freed, TextOwned, Keys;
    RenamedKeys(m1, roots[r], name);
    KeysRenamed(m0, m1, RenamedCells(m1, roots[r], name), TextOwned(roots[r].name), name.p);
    Renamed(m1, roots, lost, r, name);
  }

  class Store {
    var cells: Memory
    ghost var forest: seq<Shape>
    ghost var lost: multiset<Ptr>

    /** Every allocation belongs to one of the trees, which are held. */
    ghost predicate Valid()
      reads this
    {
      Sound(cells, forest, lost)
    }

    constructor ()
      ensures Valid() && cells == map[] && forest == [] && lost == multiset{}
    {
      cells, forest, lost := map[], [], multiset{};
    }

    /** malloc. */
    method Allocate(cell: Cell) returns (p: Ptr)
      modifies this`cells
      ensures p != NULL && p !in old(cells) && cells == old(cells)[p := cell]
    {
      FreshAddress(cells);
      p :| p != NULL && p !in cells;
      cells := cells[p := cell];
    }

    /** free. */
    method Free(p: Ptr)
      requires p in cells
      modifies this`cells
      ensures Freed(old(cells), cells, multiset{p})
    {
      cells := cells - {p};
    }

    /** Freeing a string that is there. */
    method FreeText(p: Ptr, ghost t: Text)
      requires p == Addr(t) && TextHeld(cells, t)
      modifies this`cells
      ensures Freed(old(cells), cells, TextOwned(t))
    {
      if p != NULL {
        Free(p);
      }
    }

    /** The frees of a node's strings. */
    method FreeStrings(item: Item, ghost sh: Shape)
      requires item.ref == sh.ref && item.value == Addr(sh.value) && item.name == Addr(sh.name)
      requires TextHeld(cells, sh.name) && (!sh.ref ==> TextHeld(cells, sh.value))
      requires ValueOwned(sh) + TextOwned(sh.name) <= Keys(cells)
      modifies this`cells
      ensures Freed(old(cells), cells, ValueOwned(sh) + TextOwned(sh.name))
    {
      hide Freed;
      ghost var m0 := cells;
      if !item.ref {
        FreeText(item.value, sh.value);
      } else {
        NothingFreed(m0);
      }
      ghost var m1 := cells;
      FreedSame(m0, m1, ValueOwned(sh), TextOwned(sh.name));
      FreeText(item.name, sh.name);
      FreedTwice(m0, m1, cells, ValueOwned(sh), TextOwned(sh.name));
    }

    /** The last frees of a turn of cJSON_Delete: the node's strings and the node. */
    method FreeOwn(c: Ptr, ghost sh: Shape, ghost prev: Ptr, ghost next: Ptr)
      requires c == sh.p && NodeHeld(cells, sh, prev, next) && NodeOwned(sh) <= Keys(cells)
      modifies this`cells
      ensures Freed(old(cells), cells, NodeOwned(sh))
    {
      hide Freed;
      ghost var m0 := cells;
      ghost var texts := ValueOwned(sh) + TextOwned(sh.name);
      assert texts + multiset{c} == NodeOwned(sh);
      FreeStrings(cells[c].item, sh);
      FreedSame(m0, cells, texts, multiset{c});
      assert c in multiset{c};
      ghost var m1 := cells;
      Free(c);
      FreedTwice(m0, m1, cells, texts, multiset{c});
    }

    /** One turn of the loop of cJSON_Delete. */
    method FreeNode(c: Ptr, ghost sh: Shape, ghost prev: Ptr, ghost nextPtr: Ptr) returns (next: Ptr)
      requires c == sh.p && Held(cells, sh, prev, nextPtr) && Owned(sh) <= Keys(cells)
      modifies this`cells
      ensures Freed(old(cells), cells, Owned(sh)) && next == nextPtr
      decreases sh, 1
    {
      hide Chain, OwnedAll, Freed, NodeOwned;
      ghost var m0 := cells;
      var item := cells[c].item;
      next := item.next;
      if !item.ref && item.child != NULL {
        Delete(item.child, sh.kids);
      } else {
        ChainHead(m0, sh.kids);
        NothingFreed(m0);
        NoneOwned();
      }
      ghost var m1 := cells;
      FreedSame(m0, m1, OwnedAll(sh.kids), NodeOwned(sh));
      NodeFrame(m0, m1, sh, prev, nextPtr);
      hide NodeHeld;
      FreeOwn(c, sh, prev, nextPtr);
      FreedTwice(m0, m1, cells, OwnedAll(sh.kids), NodeOwned(sh));
      assert OwnedAll(sh.kids) + NodeOwned(sh) == Owned(sh);
    }

    /** cJSON_Delete: every allocation that the nodes own is freed, once, and no other is touched. */
    method Delete(first: Ptr, ghost ss: seq<Shape>)
      requires Chain(cells, ss) && first == Head(ss) && OwnedAll(ss) <= Keys(cells)
      modifies this`cells
      ensures Freed(old(cells), cells, OwnedAll(ss))
      decreases ss, 2
    {
      hide Held, Owned, OwnedAll, Freed, LinkedFrom, Chain;
      var c := first;
      ghost var k: nat := 0;
      ghost var m0 := cells;
      NothingFreed(m0);
      NoneOwned();
      assert ss[..0] == [] && ss[0..] == ss;
      assert LinkedFrom(m0, ss, 0) by {
        ChainLinked(m0, ss);
      }
      while c != NULL
        invariant k <= |ss| && c == Head(ss[k..]) && LinkedFrom(cells, ss, k)
        invariant Freed(m0, cells, OwnedAll(ss[..k])) && OwnedAll(ss[k..]) <= Keys(cells)
        decreases |ss| - k
      {
        ghost var m1 := cells;
        HeadOwned(ss, k);
        LinkedAt(m1, ss, k);
        c := FreeNode(c, ss[k], Before(ss, k), After(ss, k));
        FreedTwice(m0, m1, cells, OwnedAll(ss[..k]), Owned(ss[k]));
        FreedSame(m1, cells, Owned(ss[k]), OwnedAll(ss[k + 1..]));
        LinkedOn(m1, cells, ss, k);
        k := k + 1;
      }
      NothingLeft(cells, ss, k);
    }

    // ----- new items -----

    /** A cell for a new root is there. */
    ghost method Rooting(m0: Memory, x: Shape)
      requires Sound(m0, forest, lost) && Held(cells, x, NULL, NULL) && Keys(cells) == Keys(m0) + Owned(x)
      requires NULL !in cells
      requires forall p :: p in m0 ==> p in cells && cells[p] == m0[p]
      modifies this`forest
      ensures Valid() && forest == old(forest) + [x]
    {
      NewRoot(m0, cells, forest, x, lost);
      forest := forest + [x];
    }

    /** cJSON_CreateNull, CreateTrue, CreateFalse, CreateBool, CreateNumber, CreateArray and CreateObject. */
    method Create(kind: Kind, number: Decimal) returns (p: Ptr)
      requires Valid()
      modifies this`cells, this`forest
      ensures Valid() && p !in old(cells) && forest == old(forest) + [Leaf(p, kind, number, NoText)]
    {
      ghost var m0 := cells;
      p := Allocate(ItemCell(NEW));
      cells := cells[p := ItemCell(NEW.(kind := kind, number := number))];
      assert Keys(cells) == Keys(m0) + multiset{p};
      LeafHeld(cells, Leaf(p, kind, number, NoText));
      Rooting(m0, Leaf(p, kind, number, NoText));
    }

    /** cJSON_CreateString. */
    method CreateString(s: string) returns (p: Ptr, ghost q: Ptr)
      requires Valid()
      modifies this`cells, this`forest
      ensures Valid() && p !in old(cells) && forest == old(forest) + [Leaf(p, KString, ZERO, Text(q, s))]
    {
      ghost var m0 := cells;
      p := Allocate(ItemCell(NEW));
      var text := Allocate(TextCell(s));
      q := text;
      cells := cells[p := ItemCell(NEW.(kind := KString, value := text))];
      StringHeld(m0, cells, p, text, s);
      hide Held, Owned, Keys;
      Rooting(m0, Leaf(p, KString, ZERO, Text(text, s)));
    }

    /** create_reference: an item that shares the other's string and children. */
    method CreateReference(item: Ptr) returns (p: Ptr)
      requires Valid() && FindAll(forest, item).Some?
      modifies this`cells, this`forest
      ensures Valid() && p !in old(cells) && forest == old(forest) + [Reference(p, FindAll(old(forest), item).value)]
    {
      ghost var m0 := cells;
      ghost var f := FindAll(forest, item).value;
      ContainerHeld(cells, forest, lost, item);
      var copy := cells[item].item.(name := NULL, ref := true, next := NULL, prev := NULL);
      p := Allocate(ItemCell(copy));
      assert Keys(cells) == Keys(m0) + multiset{p};
      LeafHeld(cells, Reference(p, f));
      Rooting(m0, Reference(p, f));
    }

    // ----- lists -----

    /** The walk to the last sibling. */
    method LastSibling(first: Ptr, ghost f: Shape) returns (c: Ptr)
      requires HeldWhere(cells, f) && !f.ref && f.kids != [] && first == f.kids[0].p
      ensures c == Last(f.kids) && IsItem(cells, c) && c != NULL
    {
      hide HeldWhere;
      c := first;
      ghost var k: nat := 0;
      KidWhere(cells, f, 0);
      while c != NULL && cells[c].item.next != NULL
        invariant k < |f.kids| && c == f.kids[k].p && IsItem(cells, c) && c != NULL
        decreases |f.kids| - k
      {
        KidWhere(cells, f, k);
        KidWhere(cells, f, k + 1);
        c := cells[c].item.next;
        k := k + 1;
      }
      KidWhere(cells, f, k);
      if k < |f.kids| - 1 {
        KidWhere(cells, f, k + 1);
      }
    }

    /** Linking an item behind the last child. */
    method Append(list: Ptr, item: Ptr, ghost f: Shape, ghost x: Shape)
      requires Joinable(cells, f, x) && NULL !in cells && list == f.p && item == x.p
      modifies this`cells
      ensures IsItem(old(cells), list) && IsItem(old(cells), item)
      ensures f.kids != [] ==> IsItem(old(cells), Last(f.kids))
      ensures cells == AddedCells(old(cells), list, Last(f.kids), item)
    {
      AddedApart(cells, f, x);
      HeadNull(cells, f);
      FirstChild(cells, f);
      hide Held, HeldWhere;
      assert HeldWhere(cells, f);
      var c := cells[list].item.child;
      if c == NULL {
        cells := WithChild(cells, list, item);
      } else {
        c := LastSibling(c, f);
        cells := WithNext(cells, c, item);
        cells := WithPrev(cells, item, c);
      }
    }

    /** cJSON_AddItemToArray, with the item a root outside the list's tree. */
    method AddItemToArray(list: Ptr, item: Ptr, ghost r: nat)
      requires Valid()
      requires item != NULL ==> r < |forest| && forest[r].p == item && Container(Without(forest, r), list)
      modifies this`cells, this`forest
      ensures Valid() && forest == if item == NULL then old(forest) else Added(old(forest), list, r)
      ensures Keys(cells) == Keys(old(cells)) && (item == NULL ==> cells == old(cells))
    {
      if item == NULL {
        return;
      }
      AddableSound(cells, forest, lost, list, r);
      hide Sound, Container, Joinable, FindAll, AddedCells, Added, Keys;
      ghost var f, after := FindAll(Without(forest, r), list).value, Added(forest, list, r);
      Append(list, item, f, forest[r]);
      forest := after;
    }

    /** A root's old name is freed. */
    method FreeName(item: Ptr, ghost r: nat)
      requires Valid() && r < |forest| && forest[r].p == item
      modifies this`cells
      ensures NameGone(cells, forest, lost, r) && Freed(old(cells), cells, TextOwned(forest[r].name))
    {
      ghost var m0, x := cells, forest[r];
      WithoutRoot(m0, forest, r);
      if cells[item].item.name != NULL {
        FreeText(cells[item].item.name, x.name);
      } else {
        NothingFreed(m0);
      }
      NameFreed(m0, cells, forest, lost, r);
    }

    /** The name of a root is replaced by a copy of a string. */
    method Rename(item: Ptr, name: string, ghost r: nat) returns (ghost q: Ptr)
      requires Valid() && r < |forest| && forest[r].p == item
      modifies this`cells, this`forest
      ensures Valid() && forest == old(forest)[r := old(forest)[r].(name := Text(q, name))]
      ensures Keys(cells) == Keys(old(cells)) - TextOwned(old(forest)[r].name) + multiset{q}
    {
      ghost var m0, x := cells, forest[r];
      FreeName(item, r);
      ghost var m1 := cells;
      RenamedIsKept(m1, forest, lost, r);
      hide NameGone, RenamedCells, Freed, TextOwned, ItemOf, Keys, Sound;
      q := StoreName(item, name, x);
      RenamedSound(m0, m1, forest, lost, r, Text(q, name));
      forest := forest[r := x.(name := Text(q, name))];
    }

    /** item->string = cJSON_strdup(name); */
    method StoreName(item: Ptr, name: string, ghost x: Shape) returns (q: Ptr)
      requires IsItem(cells, item) && item == x.p && cells[item].item == ItemOf(x, NULL, NULL)
      modifies this`cells
      ensures q != NULL && q !in old(cells) && cells == RenamedCells(old(cells), x, Text(q, name))
    {
      hide RenamedCells, ItemOf;
      q := Allocate(TextCell(name));
      cells := cells[item := ItemCell(cells[item].item.(name := q))];
      RenamedIs(old(cells), x, q, name);
    }

    /** cJSON_AddItemToObject. */
    method AddItemToObject(list: Ptr, name: string, item: Ptr, ghost r: nat) returns (ghost q: Ptr)
      requires Valid()
      requires item != NULL ==> r < |forest| && forest[r].p == item && Container(Without(forest, r), list)
      modifies this`cells, this`forest
      ensures Valid() && (item == NULL ==> forest == old(forest) && cells == old(cells))
      ensures item != NULL ==>
                var renamed := old(forest)[r := old(forest)[r].(name := Text(q, name))];
                Container(Without(renamed, r), list) && forest == Added(renamed, list, r)
                && Keys(cells) == Keys(old(cells)) - TextOwned(old(forest)[r].name) + multiset{q}
    {
      q := NULL;
      if item != NULL {
        q := Rename(item, name, r);
        assert Without(forest, r) == Without(old(forest), r);
      }
      AddItemToArray(list, item, r);
    }

    /** cJSON_AddItemReferenceToArray: the list may be anywhere, and so may the item. */
    method AddItemReferenceToArray(list: Ptr, item: Ptr) returns (ghost p: Ptr)
      requires Valid() && Container(forest, list) && FindAll(forest, item).Some?
      modifies this`cells, this`forest
      ensures Valid()
      ensures var f := FindAll(old(forest), item).value;
              Container(old(forest), list)
              && forest == EditAll(old(forest), list, KidsOf(old(forest), list) + [Reference(p, f)])
    {
      ghost var r := |forest|;
      var ref := CreateReference(item);
      p := ref;
      assert Without(forest, r) == old(forest);
      WithoutRoot(cells, forest, r);
      AddItemToArray(list, ref, r);
    }

    /** cJSON_AddItemReferenceToObject. */
    method AddItemReferenceToObject(list: Ptr, name: string, item: Ptr) returns (ghost p: Ptr, ghost q: Ptr)
      requires Valid() && Container(forest, list) && FindAll(forest, item).Some?
      modifies this`cells, this`forest
      ensures Valid()
      ensures var f := FindAll(old(forest), item).value;
              Container(old(forest), list)
              && forest
                 == EditAll(old(forest), list, KidsOf(old(forest), list) + [Reference(p, f).(name := Text(q, name))])
    {
      ghost var r := |forest|;
      var ref := CreateReference(item);
      p := ref;
      ghost var x := forest[r];
      assert Without(forest, r) == old(forest);
      WithoutRoot(cells, forest, r);
      q := AddItemToObject(list, name, ref, r);
      assert Without((old(forest) + [x])[r := x.(name := Text(q, name))], r) == old(forest);
    }

    /** The walk to the child of a given number. */
    method NthChild(list: Ptr, which: int, ghost f: Shape) returns (c: Ptr)
      requires HeldWhere(cells, f) && !f.ref && list == f.p
      ensures var i := Nth(f.kids, which); c == if i.Some? then f.kids[i.value].p else NULL
    {
      hide HeldWhere;
      FirstChild(cells, f);
      HeadNull(cells, f);
      WhereNotNull(cells, f);
      c := cells[list].item.child;
      var n := which;
      ghost var k: nat := 0;
      while c != NULL && n > 0
        invariant k <= |f.kids| && n == (if which < 0 then which else which - k) && (which >= 0 ==> n >= 0)
        invariant which < 0 ==> k == 0
        invariant c == if k < |f.kids| then f.kids[k].p else NULL
        decreases |f.kids| - k
      {
        if k < |f.kids| {
          KidWhere(cells, f, k);
        }
        c, n := cells[c].item.next, n - 1;
        k := k + 1;
      }
      if k < |f.kids| {
        KidWhere(cells, f, k);
      }
    }

    /** The writes that unlink a child. */
    method UnlinkCells(list: Ptr, c: Ptr)
      requires IsItem(cells, list) && IsItem(cells, c) && list != c
      requires var prev, next := cells[c].item.prev, cells[c].item.next;
               && (prev != NULL ==> IsItem(cells, prev)) && (next != NULL ==> IsItem(cells, next))
               && list != prev && list != next && c != prev && c != next
      modifies this`cells
      ensures cells == DetachedCells(old(cells), list, c)
    {
      if cells[c].item.prev != NULL {
        cells := WithNext(cells, cells[c].item.prev, cells[c].item.next);
      }
      if cells[c].item.next != NULL {
        cells := WithPrev(cells, cells[c].item.next, cells[c].item.prev);
      }
      if c == cells[list].item.child {
        cells := WithChild(cells, list, cells[c].item.next);
      }
      cells := WithPrev(cells, c, NULL);
      cells := WithNext(cells, c, NULL);
    }

    /** Unlinking a child. */
    method Unlink(list: Ptr, c: Ptr, ghost f: Shape, ghost i: nat)
      requires HeldWhere(cells, f) && !f.ref && Owned(f) <= Keys(cells) && NULL !in cells
      requires list == f.p && i < |f.kids| && c == f.kids[i].p
      modifies this`cells
      ensures Relinked(old(cells), cells, f, Without(f.kids, i), [f.kids[i]])
    {
      hide Held, HeldWhere, Owned, OwnedAll, NodeOwned, Relinked, DetachedCells;
      DetachedRelinks(cells, f, i);
      Around(cells, f, i);
      UnlinkCells(list, c);
    }

    /** cJSON_DetachItemFromArray. */
    method DetachItemFromArray(list: Ptr, which: int) returns (c: Ptr)
      requires Valid() && Container(forest, list)
      modifies this`cells, this`forest
      ensures Valid() && Container(old(forest), list) && Keys(cells) == Keys(old(cells))
      ensures var i := Nth(KidsOf(old(forest), list), which);
              if i.None? then c == NULL && cells == old(cells) && forest == old(forest)
              else c == KidsOf(old(forest), list)[i.value].p && forest == Detached(old(forest), list, i.value)
    {
      hide Held, HeldWhere, Rooted, FindAll, EditAll, OwnedAll, Relinked;
      ghost var m0, f := cells, FindAll(forest, list).value;
      ContainerHeld(m0, forest, lost, list);
      c := NthChild(list, which, f);
      ghost var i := Nth(f.kids, which);
      NthNull(m0, f, which);
      if c == NULL {
        return;
      }
      Unlink(list, c, f, i.value);
      DetachedSound(m0, cells, forest, lost, list, i.value);
      forest := Detached(forest, list, i.value);
    }

    /** cJSON_Delete of a root. */
    method DeleteItem(c: Ptr, ghost r: nat)
      requires Valid() && (c != NULL ==> r < |forest| && forest[r].p == c)
      modifies this`cells, this`forest
      ensures Valid() && forest == (if c == NULL then old(forest) else Without(old(forest), r))
      ensures Freed(old(cells), cells, if c == NULL then multiset{} else Owned(old(forest)[r]))
    {
      hide Held, Owned, OwnedAll, Rooted, Freed;
      if c == NULL {
        NothingFreed(cells);
        return;
      }
      ghost var m0, x := cells, forest[r];
      WithoutRoot(m0, forest, r);
      OwnedOne(x);
      RootChain(m0, x);
      Delete(c, [x]);
      RootFreed(m0, cells, forest, r, lost);
      forest := Without(forest, r);
    }

    /** cJSON_DeleteItemFromArray. */
    method DeleteItemFromArray(list: Ptr, which: int)
      requires Valid() && Container(forest, list)
      modifies this`cells, this`forest
      ensures Valid() && Container(old(forest), list)
      ensures var kids, i := KidsOf(old(forest), list), Nth(KidsOf(old(forest), list), which);
              forest == (if i.None? then old(forest) else EditAll(old(forest), list, Without(kids, i.value)))
              && Keys(cells) == Keys(old(cells)) - (if i.None? then multiset{} else Owned(kids[i.value]))
    {
      hide Held, HeldWhere, Rooted, FindAll, EditAll, OwnedAll, Owned;
      ghost var kids, i := KidsOf(forest, list), Nth(KidsOf(forest, list), which);
      ContainerHeld(cells, forest, lost, list);
      NthNull(cells, FindAll(forest, list).value, which);
      var c := DetachItemFromArray(list, which);
      ghost var rest := if i.Some? then EditAll(old(forest), list, Without(kids, i.value)) else [];
      DeleteItem(c, |rest|);
      assert i.Some? ==> Without(rest + [kids[i.value]], |rest|) == rest;
    }

    /** The writes that put an item in the place of a child. */
    method SubstituteCells(list: Ptr, c: Ptr, item: Ptr)
      requires IsItem(cells, list) && IsItem(cells, c) && IsItem(cells, item) && list != c && list != item && c != item
      requires var prev, next := cells[c].item.prev, cells[c].item.next;
               && (prev != NULL ==> IsItem(cells, prev)) && (next != NULL ==> IsItem(cells, next))
               && (prev == NULL ==> cells[list].item.child == c)
               && list != prev && list != next && c != prev && c != next && item != prev && item != next
      modifies this`cells
      ensures cells == ReplacedCells(old(cells), list, c, item)
    {
      cells := WithNext(cells, item, cells[c].item.next);
      cells := WithPrev(cells, item, cells[c].item.prev);
      if cells[item].item.next != NULL {
        cells := WithPrev(cells, cells[item].item.next, item);
      }
      if c == cells[list].item.child {
        cells := WithChild(cells, list, item);
      } else {
        cells := WithNext(cells, cells[item].item.prev, item);
      }
      cells := WithPrev(cells, c, NULL);
      cells := WithNext(cells, c, NULL);
    }

    /** Putting an item in the place of a child. */
    method Substitute(list: Ptr, c: Ptr, item: Ptr, ghost f: Shape, ghost i: nat, ghost y: Shape)
      requires Replaceable(cells, f, i, y) && list == f.p && c == f.kids[i].p && item == y.p
      modifies this`cells
      ensures Relinked(old(cells), cells, f, f.kids[i := y], [f.kids[i]])
    {
      hide Held, HeldWhere, Owned, OwnedAll, NodeOwned, Relinked, Apart, ReplacedCells;
      ReplacedRelinks(cells, f, i, y);
      AroundNew(cells, f, i, y);
      Around(cells, f, i);
      SubstituteCells(list, c, item);
    }

    /** cJSON_ReplaceItemInArray, with the new item a root outside the list's tree: the old one is deleted. */
    method ReplaceItemInArray(list: Ptr, which: int, item: Ptr, ghost r: nat)
      requires Valid() && r < |forest| && forest[r].p == item && Container(Without(forest, r), list)
      modifies this`cells, this`forest
      ensures Valid()
      ensures var kids, i := KidsOf(Without(old(forest), r), list), Nth(KidsOf(Without(old(forest), r), list), which);
              if i.None? then cells == old(cells) && forest == old(forest)
              else
                && forest == Replaced(old(forest), list, i.value, r)
                && Keys(cells) == Keys(old(cells)) - Owned(kids[i.value])
    {
      hide Held, HeldWhere, Rooted, FindAll, EditAll, OwnedAll, Owned, Relinked, Freed, Chain;
      ghost var m0, f := cells, FindAll(Without(forest, r), list).value;
      ghost var i := Nth(f.kids, which);
      JoinableIn(m0, forest, lost, list, r);
      var c := NthChild(list, which, f);
      NthNull(m0, f, which);
      if c == NULL {
        return;
      }
      ghost var x := f.kids[i.value];
      Substitute(list, c, item, f, i.value, forest[r]);
      ghost var m1 := cells;
      ReplacedRoots(m0, m1, forest, lost, list, i.value, r);
      OwnedOne(x);
      Delete(c, [x]);
      ReplacedSound(m1, cells, Replaced(forest, list, i.value, r), lost, x);
      forest := Replaced(forest, list, i.value, r);
    }

    /** The walk to the first child of a name. */
    method FindNamed(list: Ptr, name: string, ghost f: Shape) returns (i: nat, c: Ptr)
      requires HeldWhere(cells, f) && !f.ref && list == f.p
      ensures i == Named(f.kids, name) && c == if i < |f.kids| then f.kids[i].p else NULL
    {
      hide HeldWhere;
      FirstChild(cells, f);
      HeadNull(cells, f);
      WhereNotNull(cells, f);
      c := cells[list].item.child;
      i := 0;
      if f.kids != [] {
        KidName(cells, f, 0);
      }
      while c != NULL && !NameIs(NameOf(cells, c), name)
        invariant i <= |f.kids| && c == if i < |f.kids| then f.kids[i].p else NULL
        invariant forall j :: 0 <= j < i ==> !NameIs(f.kids[j].name, name)
        invariant c != NULL ==> i < |f.kids| && NameHeld(cells, c)
        decreases |f.kids| - i
      {
        KidName(cells, f, i);
        if i < |f.kids| - 1 {
          KidName(cells, f, i + 1);
        }
        c := cells[c].item.next;
        i := i + 1;
      }
      if i < |f.kids| {
        KidName(cells, f, i);
        KidWhere(cells, f, i);
      }
      NamedIs(f.kids, name, i);
    }

    /** cJSON_DetachItemFromObject. */
    method DetachItemFromObject(list: Ptr, name: string) returns (c: Ptr)
      requires Valid() && Container(forest, list)
      modifies this`cells, this`forest
      ensures Valid() && Container(old(forest), list) && Keys(cells) == Keys(old(cells))
      ensures var kids := KidsOf(old(forest), list); var i := Named(kids, name);
              if i == |kids| then c == NULL && cells == old(cells) && forest == old(forest)
              else c == kids[i].p && forest == Detached(old(forest), list, i)
    {
      hide Held, HeldWhere, Rooted, FindAll, EditAll, OwnedAll, Owned;
      ContainerHeld(cells, forest, lost, list);
      var i, found := FindNamed(list, name, FindAll(forest, list).value);
      if found == NULL {
        ghost var f := FindAll(forest, list).value;
        NthNull(cells, f, i);
        return NULL;
      }
      c := DetachItemFromArray(list, i);
    }

    /** cJSON_DeleteItemFromObject. */
    method DeleteItemFromObject(list: Ptr, name: string)
      requires Valid() && Container(forest, list)
      modifies this`cells, this`forest
      ensures Valid() && Container(old(forest), list)
      ensures var kids := KidsOf(old(forest), list); var i := Named(kids, name);
              forest == (if i == |kids| then old(forest) else EditAll(old(forest), list, Without(kids, i)))
              && Keys(cells) == Keys(old(cells)) - (if i == |kids| then multiset{} else Owned(kids[i]))
    {
      hide Held, HeldWhere, Rooted, FindAll, EditAll, OwnedAll, Owned;
      ghost var kids := KidsOf(forest, list);
      ghost var i := Named(kids, name);
      ContainerHeld(cells, forest, lost, list);
      NthNull(cells, FindAll(forest, list).value, i);
      var c := DetachItemFromObject(list, name);
      ghost var rest := if i < |kids| then EditAll(old(forest), list, Without(kids, i)) else [];
      DeleteItem(c, |rest|);
      assert i < |kids| ==> Without(rest + [kids[i]], |rest|) == rest;
    }

    /** cJSON_ReplaceItemInObject: it takes a copy of the name, and forgets the name that the new item had. */
    method ReplaceItemInObject(list: Ptr, name: string, item: Ptr, ghost r: nat) returns (ghost q: Ptr)
      requires Valid() && r < |forest| && forest[r].p == item && Container(Without(forest, r), list)
      modifies this
      ensures Valid()
      ensures var kids := KidsOf(Without(old(forest), r), list); var i := Named(kids, name);
              if i == |kids| then cells == old(cells) && forest == old(forest) && lost == old(lost)
              else
                var renamed := old(forest)[r := old(forest)[r].(name := Text(q, name))];
                && Container(Without(renamed, r), list) && Without(renamed, r) == Without(old(forest), r)
                && forest == Replaced(renamed, list, i, r) && lost == old(lost) + TextOwned(old(forest)[r].name)
    {
      hide Held, HeldWhere, Rooted, FindAll, EditAll, OwnedAll, Owned, NameGone, RenamedCells;
      ghost var x := forest[r];
      JoinableIn(cells, forest, lost, list, r);
      ghost var f := FindAll(Without(forest, r), list).value;
      var i, c := FindNamed(list, name, f);
      q := NULL;
      if c == NULL {
        NthNull(cells, f, i);
        return;
      }
      ghost var m0 := cells;
      NameForgotten(m0, forest, lost, r);
      var p := Allocate(TextCell(name));
      q := p;
      RootItem(m0, forest, lost, r);
      cells := cells[item := ItemCell(cells[item].item.(name := p))];
      assert cells == RenamedCells(m0, x, Text(p, name)) by {
        RenamedIs(m0, x, p, name);
      }
      lost := lost + TextOwned(x.name);
      Renamed(m0, forest, lost, r, Text(p, name));
      forest := forest[r := x.(name := Text(p, name))];
      assert Without(forest, r) == Without(old(forest), r);
      ReplaceItemInArray(list, i, item, r);
    }
  }
}
