/**
 The printer of src/cJSON.c on items in memory: print_value, and the loops of print_array and
 print_object that count the children, print them and sum the lengths.
 */
module TreePrint {
  import opened Wrappers
  import opened JsonStrings
  import opened JsonNumbers
  import opened TreeShapes
  import opened TreeLinks
  import opened TreeCopy
  import opened TreeBuild
  import opened JsonPrint
  import opened JsonPrintCode
  import JsonStringCode
  import Json

  /** What can be printed: numbers that an int holds, and strings that are there and are C strings. */
  predicate Fit(v: Shape)
    decreases v
  {
    && (v.kind.KNumber? ==> IsInt32(v.number))
    && (v.kind.KString? ==> v.value.Text? && NUL !in v.value.s)
    && (v.name.Text? ==> NUL !in v.name.s)
    && (v.kind.KArray? || v.kind.KObject? ==> forall i :: 0 <= i < |v.kids| ==> Fit(v.kids[i]))
  }

  lemma {:induction false} ChildrenAt(ss: seq<Shape>, i: nat)
    requires i < |ss|
    ensures ChildrenOf(ss)[i] == ChildOf(ss[i])
  {
    if i > 0 {
      ChildrenAt(ss[1..], i - 1);
    }
  }

  /** The child that a loop over the children stands at. */
  lemma KidNow(m: Memory, v: Shape, k: nat)
    requires Seen(m, v) && Fit(v) && (v.kind.KArray? || v.kind.KObject?) && k < |v.kids|
    ensures Seen(m, v.kids[k]) && IsItem(m, v.kids[k].p) && v.kids[k].p != NULL && Fit(v.kids[k])
    ensures m[v.kids[k].p].item.next == if k + 1 < |v.kids| then v.kids[k + 1].p else NULL
    ensures k + 1 < |v.kids| ==> v.kids[k + 1].p != NULL
    ensures ChildrenOf(v.kids)[k] == ChildOf(v.kids[k])
  {
    KidSeen(m, v, k);
    KidNotNull(m, v, k);
    KidNotNull(m, v, k + 1);
    ChildrenAt(v.kids, k);
  }

  lemma ElementsRoomAt(cs: seq<Json.Child>, i: nat, depth: nat, fmt: bool)
    requires i < |cs|
    ensures ElementsRoom(cs[i..], depth, fmt)
         == |Print(cs[i].item, depth, fmt)| + 2 + (if fmt then 1 else 0) + ElementsRoom(cs[i + 1..], depth, fmt)
  {
    assert cs[i..][1..] == cs[i + 1..];
  }

  lemma MembersRoomAt(cs: seq<Json.Child>, i: nat, depth: nat, fmt: bool)
    requires i < |cs|
    ensures MembersRoom(cs[i..], depth, fmt) == MemberRoom(cs[i], depth, fmt) + MembersRoom(cs[i + 1..], depth, fmt)
  {
    hide MemberRoom;
    assert cs[i..][1..] == cs[i + 1..];
  }

  lemma CollectedOn(entries: seq<string>, cs: seq<Json.Child>, n: nat, depth: nat, fmt: bool, ret: string)
    requires Collected(entries, cs, n, depth, fmt) && n < |cs| && n < |entries|
    requires ret == Print(cs[n].item, depth, fmt)
    ensures Collected(entries[n := ret], cs, n + 1, depth, fmt)
  {
    hide Print;
  }

  lemma NamedOn(names: seq<string>, cs: seq<Json.Child>, n: nat, str: string)
    requires Named(names, cs, n) && n < |cs| && n < |names| && str == PrintName(cs[n].name)
    ensures Named(names[n := str], cs, n + 1)
  {
    hide PrintName;
  }

  lemma NoneCollected(entries: seq<string>, names: seq<string>, cs: seq<Json.Child>, depth: nat, fmt: bool)
    ensures Collected(entries, cs, 0, depth, fmt) && Named(names, cs, 0)
  {
  }

  lemma NoRoom(cs: seq<Json.Child>, depth: nat, fmt: bool)
    ensures ElementsRoom(cs[|cs|..], depth, fmt) == 0 && MembersRoom(cs[|cs|..], depth, fmt) == 0
    ensures cs[0..] == cs
  {
  }

  /** print_value of what is seen from the item, references included. */
  method PrintValue(m: Memory, item: Ptr, depth: nat, fmt: bool, ghost v: Shape) returns (out: string)
    requires Seen(m, v) && item == v.p && Fit(v)
    ensures out == Print(TreeOf(v), depth, fmt)
    decreases v, 3
  {
    SeenIsItem(m, v);
    SeenNode(m, v);
    match m[item].item.kind
    case KNull => out := "null";
    case KFalse => out := "false";
    case KTrue => out := "true";
    case KNumber =>
      IntFits(v.number);
      out := PrintNumber(m[item].item.number);
    case KString =>
      var buf := JsonStringCode.PrintStringPtr(Some(m[m[item].item.value].text));
      assert buf[..buf.Length - 1] == PrintString(v.value.s);
      out := buf[..buf.Length - 1];
    case KArray => out := PrintArray(m, item, depth, fmt, v);
    case KObject => out := PrintObject(m, item, depth, fmt, v);
  }

  lemma SeenNode(m: Memory, v: Shape)
    requires Seen(m, v)
    ensures IsItem(m, v.p) && m[v.p].item.kind == v.kind && m[v.p].item.number == v.number
    ensures m[v.p].item.value == Addr(v.value) && m[v.p].item.name == Addr(v.name)
    ensures TextHeld(m, v.value) && TextHeld(m, v.name)
  {
  }

  /** The counting loop. */
  method CountKids(m: Memory, item: Ptr, ghost v: Shape) returns (numentries: nat)
    requires Seen(m, v) && item == v.p
    ensures numentries == |v.kids|
  {
    SeenHead(m, v);
    hide Seen;
    var child := m[item].item.child;
    numentries := 0;
    while child != NULL
      invariant numentries <= |v.kids|
      invariant child == if numentries < |v.kids| then v.kids[numentries].p else NULL
      decreases |v.kids| - numentries
    {
      KidSeen(m, v, numentries);
      numentries, child := numentries + 1, m[child].item.next;
    }
    KidNotNull(m, v, numentries);
  }

  /** The first loop of print_array. */
  method CollectElements(m: Memory, item: Ptr, numentries: nat, depth: nat, fmt: bool, ghost v: Shape)
    returns (entries: array<string>, len: nat)
    requires Seen(m, v) && item == v.p && Fit(v) && v.kind.KArray? && numentries == |v.kids|
    ensures fresh(entries) && entries.Length == |v.kids|
    ensures Collected(entries[..], ChildrenOf(v.kids), |v.kids|, depth, fmt)
    ensures len == 5 + ElementsRoom(ChildrenOf(v.kids), depth, fmt)
    decreases v, 0
  {
    ghost var cs := ChildrenOf(v.kids);
    NoRoom(cs, depth, fmt);
    SeenHead(m, v);
    hide Seen, Print, Fit, TreeOf, ElementsRoom, ChildrenOf, Collected;
    entries := new string[numentries];
    NoneCollected(entries[..], [], cs, depth, fmt);
    len := 5;
    var child, i := m[item].item.child, 0;
    ghost var total := 5 + ElementsRoom(cs, depth, fmt);
    while child != NULL
      invariant i <= |v.kids| && child == (if i < |v.kids| then v.kids[i].p else NULL)
      invariant fresh(entries) && Collected(entries[..], cs, i, depth, fmt)
      invariant len + ElementsRoom(cs[i..], depth, fmt) == total
      decreases |v.kids| - i
    {
      KidNow(m, v, i);
      ElementsRoomAt(cs, i, depth, fmt);
      var ret := PrintValue(m, child, depth, fmt, v.kids[i]);
      CollectedOn(entries[..], cs, i, depth, fmt, ret);
      ghost var before := entries[..];
      entries[i] := ret;
      assert entries[..] == before[i := ret];
      len := len + |ret| + 2 + if fmt then 1 else 0;
      i, child := i + 1, m[child].item.next;
    }
    KidNotNull(m, v, i);
  }

  /** print_array. */
  method PrintArray(m: Memory, item: Ptr, depth: nat, fmt: bool, ghost v: Shape) returns (out: string)
    requires Seen(m, v) && item == v.p && Fit(v) && v.kind.KArray?
    ensures out == Print(TreeOf(v), depth, fmt)
    decreases v, 1
  {
    ghost var cs := ChildrenOf(v.kids);
    assert TreeOf(v) == Json.Array(cs);
    var numentries := CountKids(m, item, v);
    if numentries == 0 {
      return "[]";
    }
    hide Seen, Fit, TreeOf, Print;
    var entries, len := CollectElements(m, item, numentries, depth + 1, fmt, v);
    ArrayFits(cs, depth, fmt);
    out := ComposeArray(cs, depth, fmt, entries, len);
  }

  /** One turn of the first loop of print_object: the texts, and their share of the length. */
  method CollectMember(m: Memory, child: Ptr, depth: nat, fmt: bool, ghost v: Shape)
    returns (str: string, ret: string, room: nat)
    requires Seen(m, v) && child == v.p && Fit(v)
    ensures str == PrintName(Said(v.name)) && ret == Print(TreeOf(v), depth, fmt)
    ensures room == MemberRoom(ChildOf(v), depth, fmt)
    decreases v, 4
  {
    SeenIsItem(m, v);
    SeenNode(m, v);
    assert v.name.Text? ==> NUL !in v.name.s;
    hide Print, PrintName, Seen, Fit, TreeOf;
    var name := m[child].item.name;
    NamePointer(m, v.name);
    str := PrintNamePtr(if name == NULL then None else Some(m[name].text));
    ret := PrintValue(m, child, depth, fmt, v);
    room := |ret| + |str| + 2 + if fmt then 2 + depth else 0;
  }

  lemma NamePointer(m: Memory, t: Text)
    requires TextHeld(m, t)
    ensures Addr(t) == NULL <==> t.NoText?
    ensures t.Text? ==> t.p in m && m[t.p] == TextCell(t.s)
  {
  }

  /** One turn of the first loop of print_object, with the step to the next child. */
  method TakeMember(m: Memory, child: Ptr, i: nat, names: array<string>, entries: array<string>,
                    depth: nat, fmt: bool, ghost v: Shape)
    returns (room: nat, next: Ptr)
    requires Seen(m, v) && Fit(v) && v.kind.KObject? && i < |v.kids| && child == v.kids[i].p
    requires entries != names && entries.Length == names.Length == |v.kids|
    requires Collected(entries[..], ChildrenOf(v.kids), i, depth, fmt) && Named(names[..], ChildrenOf(v.kids), i)
    modifies names, entries
    ensures Collected(entries[..], ChildrenOf(v.kids), i + 1, depth, fmt)
    ensures Named(names[..], ChildrenOf(v.kids), i + 1)
    ensures room == MemberRoom(ChildrenOf(v.kids)[i], depth, fmt)
    ensures next == (if i + 1 < |v.kids| then v.kids[i + 1].p else NULL) && (i + 1 < |v.kids| ==> next != NULL)
    decreases v, 0
  {
    ghost var cs := ChildrenOf(v.kids);
    KidNow(m, v, i);
    hide Print, PrintName, MemberRoom, Seen, Fit, TreeOf, ChildrenOf, Collected, Named;
    var str, ret;
    str, ret, room := CollectMember(m, child, depth, fmt, v.kids[i]);
    CollectedOn(entries[..], cs, i, depth, fmt, ret);
    NamedOn(names[..], cs, i, str);
    ghost var entries0, names0 := entries[..], names[..];
    names[i], entries[i] := str, ret;
    assert entries[..] == entries0[i := ret] && names[..] == names0[i := str];
    next := m[child].item.next;
  }

  /** The first loop of print_object. */
  method CollectMembers(m: Memory, item: Ptr, numentries: nat, depth: nat, fmt: bool, ghost v: Shape)
    returns (names: array<string>, entries: array<string>, len: nat)
    requires Seen(m, v) && item == v.p && Fit(v) && v.kind.KObject? && numentries == |v.kids|
    ensures fresh(entries) && fresh(names) && entries.Length == names.Length == |v.kids|
    ensures Collected(entries[..], ChildrenOf(v.kids), |v.kids|, depth, fmt)
    ensures Named(names[..], ChildrenOf(v.kids), |v.kids|)
    ensures len == 7 + (if fmt then depth else 0) + MembersRoom(ChildrenOf(v.kids), depth, fmt)
    decreases v, 1
  {
    ghost var cs := ChildrenOf(v.kids);
    NoRoom(cs, depth, fmt);
    SeenHead(m, v);
    hide MemberRoom, Seen, Fit, MembersRoom, ChildrenOf, Collected, Named;
    entries, names := new string[numentries], new string[numentries];
    NoneCollected(entries[..], names[..], cs, depth, fmt);
    len := 7 + if fmt then depth else 0;
    ghost var total := len + MembersRoom(cs, depth, fmt);
    var child, i := m[item].item.child, 0;
    while child != NULL
      invariant i <= |v.kids| && child == (if i < |v.kids| then v.kids[i].p else NULL)
      invariant fresh(entries) && fresh(names) && entries != names
      invariant Collected(entries[..], cs, i, depth, fmt) && Named(names[..], cs, i)
      invariant len + MembersRoom(cs[i..], depth, fmt) == total
      decreases |v.kids| - i
    {
      MembersRoomAt(cs, i, depth, fmt);
      var room;
      room, child := TakeMember(m, child, i, names, entries, depth, fmt, v);
      len := len + room;
      i := i + 1;
    }
    KidNotNull(m, v, i);
  }

  /** print_object. */
  method PrintObject(m: Memory, item: Ptr, depth: nat, fmt: bool, ghost v: Shape) returns (out: string)
    requires Seen(m, v) && item == v.p && Fit(v) && v.kind.KObject?
    ensures out == Print(TreeOf(v), depth, fmt)
    decreases v, 2
  {
    ghost var cs := ChildrenOf(v.kids);
    assert TreeOf(v) == Json.Object(cs);
    var numentries := CountKids(m, item, v);
    hide Seen, Fit, TreeOf, Print;
    if numentries == 0 {
      assert cs == [];
      out := PrintEmptyObject(depth, fmt);
      return;
    }
    var names, entries, len := CollectMembers(m, item, numentries, depth + 1, fmt, v);
    ObjectFits(cs, depth, fmt);
    out := ComposeObject(cs, depth, fmt, names, entries, len);
  }
}
