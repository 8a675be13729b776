/**
 The parser of src/cJSON.c as it builds items: each function fills in the node that it is given, and
 what it has built when it fails is freed by cJSON_ParseWithOpts.
 */
module TreeBuild {
  import opened JsonStrings
  import opened JsonNumbers
  import opened TreeShapes
  import opened TreeForest
  import opened TreeLinks
  import opened TreeItems
  import opened TreeCopy
  import opened TreeGrowth
  import JsonStringCode
  import Json

  /** The tree that an item stands for. */
  function TreeOf(sh: Shape): Json.Item
    decreases sh, 0
  {
    match sh.kind
    case KFalse => Json.False
    case KTrue => Json.True
    case KNull => Json.Null
    case KNumber => Json.Number(sh.number)
    case KString => Json.String(if sh.value.Text? then sh.value.s else [])
    case KArray => Json.Array(ChildrenOf(sh.kids))
    case KObject => Json.Object(ChildrenOf(sh.kids))
  }

  function ChildOf(sh: Shape): Json.Child
    decreases sh, 1
  {
    Json.Child(Said(sh.name), TreeOf(sh))
  }

  function ChildrenOf(ss: seq<Shape>): (cs: seq<Json.Child>)
    ensures |cs| == |ss|
    decreases ss, 0
  {
    if ss == [] then [] else [ChildOf(ss[0])] + ChildrenOf(ss[1..])
  }

  lemma {:induction false} ChildrenAppend(ss: seq<Shape>, x: Shape)
    ensures ChildrenOf(ss + [x]) == ChildrenOf(ss) + [ChildOf(x)]
  {
    hide ChildOf;
    if ss != [] {
      ChildrenAppend(ss[1..], x);
      assert (ss + [x])[1..] == ss[1..] + [x];
    }
  }

  // ----- the specification, one turn of the loops at a time -----

  /** What follows a child: a comma and more children, or the end. */
  function AfterChild(u: string, named: bool): Parsed<seq<Json.Child>> {
    if At(u, 0) == ',' then Json.ParseChildren(u[1..], named)
    else if At(u, 0) == Json.Close(named) then Ok([], u[1..])
    else Fail(u)
  }

  function Prefixed(done: seq<Json.Child>, r: Parsed<seq<Json.Child>>): Parsed<seq<Json.Child>> {
    match r
    case Ok(children, rest) => Ok(done + children, rest)
    case Fail(ep) => Fail(ep)
    case Overrun => Overrun
  }

  /** The children parsed so far, one more or its failure, and what follows. */
  function Continued(done: seq<Json.Child>, r: Parsed<Json.Child>, named: bool): Parsed<seq<Json.Child>> {
    match r
    case Ok(child, rest) => Prefixed(done + [child], AfterChild(Json.Skip(rest), named))
    case Fail(ep) => Fail(ep)
    case Overrun => Overrun
  }

  lemma ChildrenStep(t: string, named: bool)
    ensures Json.ParseChildren(t, named) == Continued([], Json.ParseChild(t, named), named)
  {
    hide Json.ParseChild, Json.Skip;
    var r := Json.ParseChild(t, named);
    if r.Ok? {
      assert [] + [r.value] == [r.value];
      assert [r.value] + [] == [r.value];
    }
  }

  lemma PrefixedTwice(a: seq<Json.Child>, b: seq<Json.Child>, r: Parsed<seq<Json.Child>>)
    ensures Prefixed(a, Prefixed(b, r)) == Prefixed(a + b, r)
  {
    if r.Ok? {
      assert (a + b) + r.value == a + (b + r.value);
    }
  }

  // ----- the code -----

  /** skip. */
  method SkipAt(s: string, i: nat) returns (j: nat)
    requires i <= |s|
    ensures i <= j <= |s| && s[j..] == Json.Skip(s[i..])
  {
    j := i;
    while At(s, j) != NUL && At(s, j) as int <= 32
      invariant i <= j <= |s| && Json.Skip(s[j..]) == Json.Skip(s[i..])
      decreases |s| - j
    {
      assert s[j..][1..] == s[j + 1..];
      j := j + 1;
    }
  }

  /** xstrncmp(value, word, |word|) == 0. */
  predicate BeginsAt(s: string, i: nat, word: string) {
    i + |word| <= |s| && s[i..i + |word|] == word
  }

  lemma BeginsThere(s: string, i: nat, word: string)
    requires i <= |s|
    ensures BeginsAt(s, i, word) <==> Json.Begins(s[i..], word)
    ensures BeginsAt(s, i, word) ==> s[i..][|word|..] == s[i + |word|..]
  {
    if i + |word| <= |s| {
      assert s[i..][..|word|] == s[i..i + |word|];
    }
  }

  lemma RestIsSuffix(t: string)
    requires ParseString(t).Ok?
    ensures var r := ParseString(t).rest; |r| <= |t| && t[|t| - |r|..] == r
  {
    UnitsSpell(t[1..]);
    var (us, rest) := Units(t[1..]).value;
    assert t[1..][|UnitsText(us)|..] == rest;
  }

  lemma SuffixOf(s: string, i: nat, r: string)
    requires i <= |s| && |r| <= |s[i..]| && s[i..][|s[i..]| - |r|..] == r
    ensures i <= |s| - |r| <= |s| && s[|s| - |r|..] == r
  {
  }

  /** What stays of a tree's identity when it grows. */
  lemma RegrownEnds(m: Memory, m': Memory, f: Shape, f': Shape)
    requires Regrown(m, m', f, f')
    ensures Growing(m', f') && f'.p == f.p && IsItem(m', f.p) && f.p != NULL
  {
  }

  lemma NumberThere(m: Memory, f: Shape)
    requires Growing(m, f)
    ensures IsItem(m, f.p) && m[f.p].item.number == f.number && m[f.p].item.child == Head(f.kids)
  {
    assert !f.ref;
  }

  /** Storing a type and a number. */
  method SetNumber(store: Store, p: Ptr, kind: Kind, number: Decimal, ghost f: Shape)
    requires Growing(store.cells, f) && f.p == p
    modifies store`cells
    ensures Regrown(old(store.cells), store.cells, f, f.(kind := kind, number := number))
  {
    Retyped(store.cells, f, kind, number);
    store.cells := store.cells[p := ItemCell(store.cells[p].item.(kind := kind, number := number))];
  }

  /** Storing a type. */
  method SetKind(store: Store, p: Ptr, kind: Kind, ghost f: Shape)
    requires Growing(store.cells, f) && f.p == p
    modifies store`cells
    ensures Regrown(old(store.cells), store.cells, f, f.(kind := kind))
  {
    NumberThere(store.cells, f);
    hide Growing, Regrown;
    SetNumber(store, p, kind, store.cells[p].item.number, f);
  }

  /** parse_string on an item: the string becomes its value, or, in parse_object, then its name. */
  method ParseStringInto(store: Store, p: Ptr, s: string, i: nat, isName: bool, ghost f: Shape)
    returns (ok: bool, at: nat, ghost f': Shape, ghost q: Ptr)
    requires i <= |s| && ParseString(s[i..]) != Overrun
    requires Growing(store.cells, f) && f.p == p && f.kids == []
    requires if isName then f.name == NoText else f.value == NoText
    modifies store`cells
    ensures at <= |s| && Regrown(old(store.cells), store.cells, f, f')
    ensures !ok ==> ParseString(s[i..]) == Fail(s[at..]) && f' == f
    ensures ok ==> ParseString(s[i..]).Ok? && ParseString(s[i..]).rest == s[at..]
    ensures ok ==> f' == Texted(f, q, ParseString(s[i..]).value, isName).(kind := KString)
  {
    q := NULL;
    RegrownNot(store.cells, f);
    hide ParseString, Texted, Growing, Regrown;
    var r := JsonStringCode.ParseStringAt(s, i);
    if r.Fail? {
      FailsHere(s[i..]);
      return false, i, f, q;
    }
    RestIsSuffix(s[i..]);
    SuffixOf(s, i, r.rest);
    at := |s| - |r.rest|;
    f', q := SetText(store, p, r.value, isName, f);
    ok := true;
  }

  /** Storing a string and its type. */
  method SetText(store: Store, p: Ptr, text: string, isName: bool, ghost f: Shape)
    returns (ghost f': Shape, ghost q: Ptr)
    requires Growing(store.cells, f) && f.p == p && f.kids == []
    requires if isName then f.name == NoText else f.value == NoText
    modifies store`cells
    ensures Regrown(old(store.cells), store.cells, f, f') && f' == Texted(f, q, text, isName).(kind := KString)
  {
    ghost var m0 := store.cells;
    RegrownNot(m0, f);
    RegrownEnds(m0, m0, f, f);
    var out := store.Allocate(TextCell(text));
    q := out;
    hide Growing, Regrown;
    TextGiven(m0, f, q, text, isName);
    store.cells := if isName then WithName(store.cells, p, out) else WithValue(store.cells, p, out);
    ghost var m1, f1 := store.cells, Texted(f, q, text, isName);
    assert m1 == TextedCells(m0, p, q, text, isName);
    RegrownEnds(m0, m1, f, f1);
    SetKind(store, p, KString, f1);
    f' := f1.(kind := KString);
    RegrownTwice(m0, m1, store.cells, f, f1, f');
  }

  lemma FailsHere(t: string)
    ensures ParseString(t).Fail? ==> ParseString(t) == Fail(t)
  {
  }

  /** A new item behind the last child. */
  method AddKid(store: Store, p: Ptr, last: Ptr, ghost f: Shape) returns (q: Ptr, ghost x: Shape)
    requires Growing(store.cells, f) && f.p == p && last == Last(f.kids)
    modifies store`cells
    ensures x == Leaf(q, KFalse, ZERO, NoText) && Growing(store.cells, x)
    ensures Regrown(old(store.cells), store.cells, f, f.(kids := f.kids + [x]))
  {
    ghost var m0 := store.cells;
    q := store.Allocate(ItemCell(NEW));
    x := Leaf(q, KFalse, ZERO, NoText);
    KidAppended(m0, f, q);
    if last == NULL {
      store.cells := WithChild(store.cells, p, q);
    } else {
      store.cells := WithNext(store.cells, last, q);
      store.cells := WithPrev(store.cells, q, last);
    }
  }

  /** parse_value. */
  method ParseValueInto(store: Store, p: Ptr, s: string, i: nat, ghost f: Shape)
    returns (ok: bool, at: nat, ghost f': Shape)
    requires i <= |s| && Json.ParseValue(s[i..]) != Overrun
    requires Growing(store.cells, f) && f.p == p && f.kids == [] && f.value == NoText
    modifies store`cells
    ensures at <= |s| && Regrown(old(store.cells), store.cells, f, f') && f'.name == f.name
    ensures Json.ParseValue(s[i..]) == if ok then Ok(TreeOf(f'), s[at..]) else Fail(s[at..])
    decreases |s| - i, 1
  {
    hide Growing, Regrown, ParseString, ParseNumber, Json.ParseList;
    BeginsThere(s, i, "null");
    BeginsThere(s, i, "false");
    BeginsThere(s, i, "true");
    var c := At(s, i);
    assert c == At(s[i..], 0);
    if BeginsAt(s, i, "null") {
      SetKind(store, p, KNull, f);
      return true, i + 4, f.(kind := KNull);
    }
    if BeginsAt(s, i, "false") {
      SetKind(store, p, KFalse, f);
      return true, i + 5, f.(kind := KFalse);
    }
    if BeginsAt(s, i, "true") {
      SetKind(store, p, KTrue, f);
      return true, i + 4, f.(kind := KTrue);
    }
    if c == '"' {
      ghost var q;
      ok, at, f', q := ParseStringInto(store, p, s, i, false, f);
      return;
    }
    if c == '-' || IsDigit(c) {
      var d;
      d, at := ParseNumberAt(s, i);
      SetNumber(store, p, KNumber, d, f);
      return true, at, f.(kind := KNumber, number := d);
    }
    if c == '[' || c == '{' {
      ok, at, f' := ParseListInto(store, p, s, i, c == '{', f);
      return;
    }
    RegrownNot(store.cells, f);
    return false, i, f;
  }

  function KindOf(named: bool): Kind {
    if named then KObject else KArray
  }

  /** parse_array and parse_object. */
  method ParseListInto(store: Store, p: Ptr, s: string, i: nat, named: bool, ghost f: Shape)
    returns (ok: bool, at: nat, ghost f': Shape)
    requires i < |s| && Json.ParseList(s[i..], named) != Overrun
    requires Growing(store.cells, f) && f.p == p && f.kids == [] && f.value == NoText
    modifies store`cells
    ensures at <= |s| && Regrown(old(store.cells), store.cells, f, f') && f'.name == f.name
    ensures Json.ParseList(s[i..], named) == if ok then Ok(TreeOf(f'), s[at..]) else Fail(s[at..])
    decreases |s| - i, 0
  {
    hide Growing, Regrown, Json.ParseChildren, Json.Skip;
    ghost var m0 := store.cells;
    SetKind(store, p, KindOf(named), f);
    ghost var m1, f1 := store.cells, f.(kind := KindOf(named));
    assert s[i..][1..] == s[i + 1..];
    at := SkipAt(s, i + 1);
    if At(s, at) == Json.Close(named) {
      assert s[at..][1..] == s[at + 1..];
      return true, at + 1, f1;
    }
    RegrownEnds(m0, m1, f, f1);
    ok, at, f' := ParseChildrenInto(store, p, s, at, named, f1);
    RegrownTwice(m0, m1, store.cells, f, f1, f');
  }

  lemma NextStep(done: seq<Json.Child>, u: string, named: bool)
    requires At(u, 0) == ','
    ensures Prefixed(done, AfterChild(u, named)) == Continued(done, Json.ParseChild(u[1..], named), named)
  {
    ChildrenStep(u[1..], named);
    hide Json.ParseChildren, Json.ParseChild, Json.Skip;
    var r := Json.ParseChild(u[1..], named);
    if r.Ok? {
      PrefixedTwice(done, [r.value], AfterChild(Json.Skip(r.rest), named));
      assert [] + [r.value] == [r.value];
    }
  }

  lemma LastStep(done: seq<Json.Child>, u: string, named: bool)
    requires At(u, 0) != ','
    ensures Prefixed(done, AfterChild(u, named)) == if At(u, 0) == Json.Close(named) then Ok(done, u[1..]) else Fail(u)
  {
    assert done + [] == done;
  }

  /** One turn: a new item is linked, and filled in. */
  method ParseNext(store: Store, p: Ptr, last: Ptr, s: string, i: nat, named: bool, ghost f: Shape)
    returns (ok: bool, at: nat, child: Ptr, ghost f': Shape, ghost x: Shape)
    requires i <= |s| && Json.ParseChild(s[i..], named) != Overrun
    requires Growing(store.cells, f) && f.p == p && last == Last(f.kids)
    modifies store`cells
    ensures at <= |s| && Regrown(old(store.cells), store.cells, f, f') && f' == f.(kids := f.kids + [x]) && x.p == child
    ensures !ok ==> Json.ParseChild(s[i..], named) == Fail(s[at..])
    ensures ok ==> i < at && Json.ParseChild(s[i..], named).Ok? && Json.ParseChild(s[i..], named).value == ChildOf(x)
    ensures ok ==> s[at..] == Json.Skip(Json.ParseChild(s[i..], named).rest)
    decreases |s| - i, 3
  {
    hide Growing, Regrown, Json.ParseChild, Json.Skip;
    ghost var m0 := store.cells;
    ghost var y;
    child, y := AddKid(store, p, last, f);
    ghost var m1, f1 := store.cells, f.(kids := f.kids + [y]);
    RegrownEnds(m0, m1, f, f1);
    ok, at, x := ParseChildInto(store, child, s, i, named, y);
    f' := f1.(kids := f.kids + [x]);
    RegrownEnds(m1, store.cells, y, x);
    LastKidRegrown(m1, store.cells, f1, f.kids, y, x);
    RegrownTwice(m0, m1, store.cells, f, f1, f');
    if ok {
      at := SkipAt(s, at);
    }
  }

  /** The value of one turn, which in an object follows a name and a colon. */
  method ParseChildInto(store: Store, p: Ptr, s: string, i: nat, named: bool, ghost f: Shape)
    returns (ok: bool, at: nat, ghost f': Shape)
    requires i <= |s| && Json.ParseChild(s[i..], named) != Overrun
    requires Growing(store.cells, f) && f == Leaf(p, KFalse, ZERO, NoText)
    modifies store`cells
    ensures at <= |s| && Regrown(old(store.cells), store.cells, f, f')
    ensures !ok ==> Json.ParseChild(s[i..], named) == Fail(s[at..])
    ensures ok ==> i < at && Json.ParseChild(s[i..], named) == Ok(ChildOf(f'), s[at..])
    decreases |s| - i, 2
  {
    hide Growing, Regrown, Json.ParseValue, ParseString, Json.Skip, TreeOf;
    var j := SkipAt(s, i);
    if !named {
      ok, at, f' := ParseValueInto(store, p, s, j, f);
      return;
    }
    ghost var m0 := store.cells;
    ghost var q;
    ok, at, f', q := ParseStringInto(store, p, s, j, true, f);
    if !ok {
      return;
    }
    ghost var m1, f1 := store.cells, f';
    var k := SkipAt(s, at);
    if At(s, k) != ':' {
      return false, k, f';
    }
    assert s[k..][1..] == s[k + 1..];
    j := SkipAt(s, k + 1);
    RegrownEnds(m0, m1, f, f1);
    ok, at, f' := ParseValueInto(store, p, s, j, f1);
    RegrownTwice(m0, m1, store.cells, f, f1, f');
  }

  /** The loops of parse_array and parse_object. */
  method ParseChildrenInto(store: Store, p: Ptr, s: string, i: nat, named: bool, ghost f: Shape)
    returns (ok: bool, at: nat, ghost f': Shape)
    requires i <= |s| && Json.ParseChildren(s[i..], named) != Overrun
    requires Growing(store.cells, f) && f.p == p && f.kids == []
    modifies store`cells
    ensures at <= |s| && Regrown(old(store.cells), store.cells, f, f') && f'.name == f.name && f'.kind == f.kind
    ensures Json.ParseChildren(s[i..], named) == if ok then Ok(ChildrenOf(f'.kids), s[at..]) else Fail(s[at..])
    decreases |s| - i, 4
  {
    hide Growing, Regrown, Json.ParseChild, Json.ParseChildren, AfterChild, ChildrenOf, ChildOf, Json.Skip;
    ghost var m0, whole := store.cells, Json.ParseChildren(s[i..], named);
    ChildrenStep(s[i..], named);
    var child;
    ghost var x;
    ok, at, child, f', x := ParseNext(store, p, NULL, s, i, named, f);
    if !ok {
      return;
    }
    FirstChild(f, x);
    RegrownEnds(m0, store.cells, f, f');
    while At(s, at) == ','
      invariant i < at <= |s| && Regrown(m0, store.cells, f, f') && Growing(store.cells, f')
      invariant f'.p == p && f'.name == f.name && f'.kind == f.kind && child == Last(f'.kids)
      invariant whole == Prefixed(ChildrenOf(f'.kids), AfterChild(s[at..], named))
      decreases |s| - at
    {
      ghost var m1, f1 := store.cells, f';
      assert s[at..][1..] == s[at + 1..];
      NextStep(ChildrenOf(f1.kids), s[at..], named);
      ok, at, child, f', x := ParseNext(store, p, child, s, at + 1, named, f1);
      RegrownTwice(m0, m1, store.cells, f, f1, f');
      RegrownEnds(m0, store.cells, f, f');
      if !ok {
        return;
      }
      ChildrenAppend(f1.kids, x);
    }
    LastStep(ChildrenOf(f'.kids), s[at..], named);
    if At(s, at) == Json.Close(named) {
      assert s[at..][1..] == s[at + 1..];
      return true, at + 1, f';
    }
    ok := false;
  }

  lemma FirstChild(f: Shape, x: Shape)
    requires f.kids == []
    ensures f.kids + [x] == [x] && ChildrenOf(f.kids + [x]) == [] + [ChildOf(x)]
  {
    assert [x][1..] == [];
  }

  // ----- cJSON_ParseWithOpts -----

  /** What has been built for a new root is freed: memory is as it was. */
  lemma FreedNew(m: Memory, p: Ptr, m1: Memory, m2: Memory, f: Shape)
    requires p !in m && Regrown(m[p := ItemCell(NEW)], m1, Leaf(p, KFalse, ZERO, NoText), f) && Freed(m1, m2, Owned(f))
    ensures m2 == m
  {
    hide Growing, Owned;
    BuiltKeys(m, p, m1, f);
    assert Keys(m2) == Keys(m);
    SameKeys(m, m2);
    forall q | q in m
      ensures m2[q] == m[q]
    {
      LeafOwned(p);
      assert q in m[p := ItemCell(NEW)] && q !in multiset{p};
    }
  }

  lemma BuiltKeys(m: Memory, p: Ptr, m1: Memory, f: Shape)
    requires p !in m && Regrown(m[p := ItemCell(NEW)], m1, Leaf(p, KFalse, ZERO, NoText), f)
    ensures Keys(m1) == Keys(m) + Owned(f)
  {
    LeafOwned(p);
    hide Growing, Owned;
    NewKeys(m, m[p := ItemCell(NEW)], p);
    assert Keys(m1) + multiset{p} == Keys(m) + Owned(f) + multiset{p};
    BagCancel(Keys(m1), Keys(m) + Owned(f), multiset{p});
  }

  lemma SameKeys(m: Memory, m': Memory)
    requires Keys(m) == Keys(m')
    ensures m.Keys == m'.Keys
  {
    forall q
      ensures q in m <==> q in m'
    {
      assert q in Keys(m) <==> q in Keys(m');
    }
  }

  /** What has been built for a new root joins the trees. */
  lemma BuiltBeside(m: Memory, p: Ptr, m1: Memory, f: Shape)
    requires p !in m && NULL !in m && Regrown(m[p := ItemCell(NEW)], m1, Leaf(p, KFalse, ZERO, NoText), f)
    ensures Beside(m, m1, f) && Held(m1, f, NULL, NULL)
  {
    BuiltKeys(m, p, m1, f);
    LeafOwned(p);
    hide Owned;
    assert Grown(m, m1) by {
      forall q | q in m
        ensures q in m1 && m1[q] == m[q]
      {
        assert q in m[p := ItemCell(NEW)] && q !in multiset{p};
      }
    }
    assert Held(m1, f, m1[f.p].item.prev, m1[f.p].item.next);
  }

  lemma NewGrows(m: Memory, p: Ptr)
    requires p !in m && NULL !in m && p != NULL
    ensures Growing(m[p := ItemCell(NEW)], Leaf(p, KFalse, ZERO, NoText))
  {
    LeafOwned(p);
    LeafHeld(m[p := ItemCell(NEW)], Leaf(p, KFalse, ZERO, NoText));
  }

  /**
   cJSON_ParseWithOpts: on success one more tree, which stands for what the text says; on failure a null
   pointer, the place of the error, and the memory as it was.
   */
  method ParseWithOpts(store: Store, s: string, requireEnd: bool) returns (root: Ptr, at: nat, ghost d: Shape)
    requires store.Valid() && Json.ParseWithOpts(s, requireEnd) != Overrun
    modifies store`cells, store`forest
    ensures store.Valid() && at <= |s|
    ensures root == NULL ==> store.cells == old(store.cells) && store.forest == old(store.forest)
    ensures root == NULL ==> Json.ParseWithOpts(s, requireEnd) == Fail(s[at..])
    ensures root != NULL ==> Json.ParseWithOpts(s, requireEnd) == Ok(TreeOf(d), s[at..]) && root == d.p && Unshared(d)
    ensures root != NULL ==> store.forest == old(store.forest) + [d] && Grown(old(store.cells), store.cells)
    ensures root != NULL && requireEnd ==> At(s, at) == NUL
  {
    hide Growing, Regrown, Json.ParseValue, Json.Skip, TreeOf, Held, Owned, OwnedAll, Rooted, Unshared;
    ghost var m0 := store.cells;
    root := store.Allocate(ItemCell(NEW));
    ghost var m1, leaf := store.cells, Leaf(root, KFalse, ZERO, NoText);
    NewGrows(m0, root);
    assert s[0..] == s;
    at := SkipAt(s, 0);
    var ok;
    ok, at, d := ParseValueInto(store, root, s, at, leaf);
    if ok && requireEnd {
      at := SkipAt(s, at);
      ok := At(s, at) == NUL;
    }
    RegrownEnds(m1, store.cells, leaf, d);
    BuiltBeside(m0, root, store.cells, d);
    if !ok {
      ghost var m2 := store.cells;
      OwnedOne(d);
      RootChain(m2, d);
      store.Delete(root, [d]);
      FreedNew(m0, root, m2, store.cells, d);
      root := NULL;
      return;
    }
    NewRoot(m0, store.cells, store.forest, d, store.lost);
    store.forest := store.forest + [d];
  }
}
