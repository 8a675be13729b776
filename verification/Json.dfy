/**
 The parser of src/cJSON.c as a function from text to item trees, and the concrete syntax that it
 is measured against: section 2 of RFC 8259, with comments allowed between tokens.

 The parser's pointers into its text are the suffixes of the text.
 */
module Json {
  import opened Wrappers
  import opened JsonStrings
  import opened JsonNumbers

  /** An item: its type with what belongs to it; a child has a name exactly inside an object. */
  datatype Item =
    | Null
    | False
    | True
    | Number(number: Decimal)
    | String(value: string)
    | Array(children: seq<Child>)
    | Object(children: seq<Child>)

  datatype Child = Child(name: Option<string>, item: Item)

  /** skip. */
  function Skip(t: string): (u: string)
    ensures |u| <= |t|
  {
    if At(t, 0) != NUL && At(t, 0) as int <= 32 then Skip(t[1..]) else t
  }

  /** xstrncmp(value, word, n) == 0. */
  predicate Begins(t: string, word: string) {
    word <= t
  }

  /** parse_value. */
  function ParseValue(t: string): (r: Parsed<Item>)
    ensures r.Ok? ==> |r.rest| < |t|
    decreases |t|, 1
  {
    if Begins(t, "null") then Ok(Null, t[4..])
    else if Begins(t, "false") then Ok(False, t[5..])
    else if Begins(t, "true") then Ok(True, t[4..])
    else if At(t, 0) == '"' then
      match ParseString(t)
      case Ok(s, rest) => Ok(String(s), rest)
      case Fail(ep) => Fail(ep)
      case Overrun => Overrun
    else if At(t, 0) == '-' || IsDigit(At(t, 0)) then
      NumberShrinks(t);
      Ok(Number(ParseNumber(t).0), ParseNumber(t).1)
    else if At(t, 0) == '[' then ParseList(t, false)
    else if At(t, 0) == '{' then ParseList(t, true)
    else Fail(t)
  }

  function Close(named: bool): char {
    if named then '}' else ']'
  }

  function ListOf(named: bool, children: seq<Child>): Item {
    if named then Object(children) else Array(children)
  }

  /** parse_array and parse_object, after the test of the first character. */
  function ParseList(t: string, named: bool): (r: Parsed<Item>)
    requires t != ""
    ensures r.Ok? ==> |r.rest| < |t|
    decreases |t|, 0
  {
    var u := Skip(t[1..]);
    if At(u, 0) == Close(named) then Ok(ListOf(named, []), u[1..])
    else
      match ParseChildren(u, named)
      case Ok(children, rest) => Ok(ListOf(named, children), rest)
      case Fail(ep) => Fail(ep)
      case Overrun => Overrun
  }

  /** One turn of their loops: a value, which in an object follows a name and a colon. */
  function ParseChild(t: string, named: bool): (r: Parsed<Child>)
    ensures r.Ok? ==> |r.rest| < |t|
    decreases |t|, 2
  {
    if named then
      match ParseString(Skip(t))
      case Fail(ep) => Fail(ep)
      case Overrun => Overrun
      case Ok(name, rest) =>
        var u := Skip(rest);
        if At(u, 0) != ':' then Fail(u)
        else NameIt(Some(name), ParseValue(Skip(u[1..])))
    else NameIt(None, ParseValue(Skip(t)))
  }

  function NameIt(name: Option<string>, r: Parsed<Item>): Parsed<Child> {
    match r
    case Ok(item, rest) => Ok(Child(name, item), rest)
    case Fail(ep) => Fail(ep)
    case Overrun => Overrun
  }

  /** The loops: children separated by commas, then the closing bracket. */
  function ParseChildren(t: string, named: bool): (r: Parsed<seq<Child>>)
    ensures r.Ok? ==> |r.rest| < |t|
    decreases |t|, 3
  {
    match ParseChild(t, named)
    case Fail(ep) => Fail(ep)
    case Overrun => Overrun
    case Ok(child, rest) =>
      var u := Skip(rest);
      if At(u, 0) == ',' then
        match ParseChildren(u[1..], named)
        case Fail(ep) => Fail(ep)
        case Overrun => Overrun
        case Ok(children, rest) => Ok([child] + children, rest)
      else if At(u, 0) == Close(named) then Ok([child], u[1..])
      else Fail(u)
  }

  /** cJSON_ParseWithOpts. */
  function ParseWithOpts(t: string, requireEnd: bool): Parsed<Item> {
    match ParseValue(Skip(t))
    case Ok(item, rest) =>
      if !requireEnd then Ok(item, rest)
      else if At(Skip(rest), 0) == NUL then Ok(item, Skip(rest))
      else Fail(Skip(rest))
    case Fail(ep) => Fail(ep)
    case Overrun => Overrun
  }

  // ----- concrete syntax -----

  /** What may stand between tokens: white space and, as an extension, comments. */
  datatype Piece = Space(c: char) | Line(body: string) | Block(body: string)

  type Gap = seq<Piece>

  datatype Cst =
    | CNull
    | CFalse
    | CTrue
    | CNumber(literal: Literal)
    | CString(units: seq<Unit>)
    | CArray(gap: Gap, elements: seq<CChild>)     // the gap is that of empty brackets
    | CObject(gap: Gap, elements: seq<CChild>)

  datatype CChild = CChild(name: Option<CName>, before: Gap, value: Cst, after: Gap)

  datatype CName = CName(before: Gap, units: seq<Unit>, colon: Gap)

  function PieceText(p: Piece): string {
    match p
    case Space(c) => [c]
    case Line(body) => ['/', '/'] + body + ['\n']
    case Block(body) => ['/', '*'] + body + ['*', '/']
  }

  function GapText(g: Gap): string {
    if g == [] then [] else PieceText(g[0]) + GapText(g[1..])
  }

  function InQuotes(units: seq<Unit>, rest: string): string {
    ['"'] + (UnitsText(units) + (['"'] + rest))
  }

  /** The text of a value, of a child, and of children with the commas between them, each followed by `rest`. */
  function Spell(c: Cst, rest: string): string
    decreases c
  {
    match c
    case CNull => "null" + rest
    case CFalse => "false" + rest
    case CTrue => "true" + rest
    case CNumber(literal) => LiteralText(literal) + rest
    case CString(units) => InQuotes(units, rest)
    case CArray(gap, elements) =>
      ['['] + if elements == [] then GapText(gap) + ([']'] + rest) else SpellChildren(elements, [']'] + rest)
    case CObject(gap, elements) =>
      ['{'] + if elements == [] then GapText(gap) + (['}'] + rest) else SpellChildren(elements, ['}'] + rest)
  }

  function SpellChild(c: CChild, rest: string): string
    decreases c
  {
    var value := GapText(c.before) + Spell(c.value, GapText(c.after) + rest);
    match c.name
    case None => value
    case Some(name) => GapText(name.before) + InQuotes(name.units, GapText(name.colon) + ([':'] + value))
  }

  function SpellChildren(cs: seq<CChild>, rest: string): string
    requires cs != []
    decreases cs
  {
    SpellChild(cs[0], if |cs| == 1 then rest else [','] + SpellChildren(cs[1..], rest))
  }

  /** White space of section 2 of RFC 8259. */
  predicate IsSpace(c: char) {
    c == ' ' || c == '\t' || c == '\n' || c == '\r'
  }

  ghost predicate Blank(g: Gap) {
    forall i :: 0 <= i < |g| ==> g[i].Space? && IsSpace(g[i].c)
  }

  /** The grammar without comments. */
  ghost predicate Proper(c: Cst)
    decreases c
  {
    match c
    case CNumber(literal) => LiteralOk(literal)
    case CString(units) => UnitsOk(units)
    case CArray(gap, elements) => Blank(gap) && ProperChildren(elements, false)
    case CObject(gap, elements) => Blank(gap) && ProperChildren(elements, true)
    case _ => true
  }

  ghost predicate ProperChild(c: CChild, named: bool)
    decreases c
  {
    && Blank(c.before) && Blank(c.after) && Proper(c.value) && named == c.name.Some?
    && (named ==> Blank(c.name.value.before) && Blank(c.name.value.colon) && UnitsOk(c.name.value.units))
  }

  ghost predicate ProperChildren(cs: seq<CChild>, named: bool)
    decreases cs
  {
    cs == [] || (ProperChild(cs[0], named) && ProperChildren(cs[1..], named))
  }

  /** The tree that the syntax stands for, with the strings that parse_string stores. */
  function Tree(c: Cst): Item
    requires Proper(c)
    decreases c
  {
    match c
    case CNull => Null
    case CFalse => False
    case CTrue => True
    case CNumber(literal) => Number(Value(literal))
    case CString(units) => String(Decode(units))
    case CArray(_, elements) => Array(ChildTrees(elements, false))
    case CObject(_, elements) => Object(ChildTrees(elements, true))
  }

  function ChildTree(c: CChild, named: bool): Child
    requires ProperChild(c, named)
    decreases c
  {
    Child(if named then Some(Decode(c.name.value.units)) else None, Tree(c.value))
  }

  function ChildTrees(cs: seq<CChild>, named: bool): seq<Child>
    requires ProperChildren(cs, named)
    decreases cs
  {
    if cs == [] then [] else [ChildTree(cs[0], named)] + ChildTrees(cs[1..], named)
  }

  // ----- the parser reads the grammar -----

  lemma {:induction false} SkipGap(g: Gap, rest: string)
    requires Blank(g) && (At(rest, 0) == NUL || At(rest, 0) as int > 32)
    ensures Skip(GapText(g) + rest) == rest
  {
    if g == [] {
      assert GapText(g) + rest == rest;
    } else {
      assert GapText(g) + rest == [g[0].c] + (GapText(g[1..]) + rest);
      SkipGap(g[1..], rest);
      Tail(g[0].c, GapText(g[1..]) + rest);
    }
  }

  /** A gap ends a number, whatever follows it that does. */
  lemma GapEnds(g: Gap, rest: string)
    requires Blank(g) && Ends(rest)
    ensures Ends(GapText(g) + rest)
  {
    if g == [] {
      assert GapText(g) + rest == rest;
    } else {
      assert (GapText(g) + rest)[0] == g[0].c;
    }
  }

  lemma StringSpelled(units: seq<Unit>, rest: string)
    requires UnitsOk(units)
    ensures ParseString(InQuotes(units, rest)) == Ok(Decode(units), rest)
    ensures At(InQuotes(units, rest), 0) == '"'
  {
    UnitsOfText(units, ['"'] + rest);
    Tail('"', UnitsText(units) + (['"'] + rest));
    Tail('"', rest);
  }

  /** A value's first character tells its kind, and is not white space. */
  lemma FirstOf(c: Cst, rest: string)
    requires Proper(c)
    ensures var f := At(Spell(c, rest), 0);
            && f as int > 32
            && (c.CNumber? <==> f == '-' || IsDigit(f)) && (c.CString? <==> f == '"')
            && (c.CArray? <==> f == '[') && (c.CObject? <==> f == '{')
            && (c.CNull? <==> f == 'n') && (c.CFalse? <==> f == 'f') && (c.CTrue? <==> f == 't')
            && f != ']' && f != '}'
  {
    if c.CNumber? {
      assert LiteralText(c.literal)[0] == if c.literal.minus then '-' else c.literal.whole[0];
    }
  }

  lemma {:induction false} SkipTwice(t: string)
    ensures Skip(Skip(t)) == Skip(t)
  {
    if At(t, 0) != NUL && At(t, 0) as int <= 32 {
      SkipTwice(t[1..]);
    }
  }

  /** White space in front of a child makes no difference. */
  lemma ChildrenSkip(t: string, named: bool)
    ensures ParseChildren(Skip(t), named) == ParseChildren(t, named)
  {
    SkipTwice(t);
    assert ParseChild(Skip(t), named) == ParseChild(t, named) by {
      hide ParseValue, ParseString, Skip;
    }
    hide ParseChild, Skip;
  }

  lemma {:induction false} ValueSpelled(c: Cst, rest: string)
    requires Proper(c) && (c.CNumber? ==> Ends(rest))
    ensures ParseValue(Spell(c, rest)) == Ok(Tree(c), rest)
    decreases c, 0
  {
    hide Units, Decode, ParseNumber, Value, LiteralText, UnitsText, LiteralOk;
    var t := Spell(c, rest);
    FirstOf(c, rest);
    match c
    case CNull => assert t[4..] == rest;
    case CFalse => assert t[5..] == rest;
    case CTrue => assert t[4..] == rest;
    case CNumber(literal) =>
      NumberSpelled(literal, rest);
    case CString(units) =>
      StringSpelled(units, rest);
    case CArray(gap, elements) =>
      ListSpelled(false, gap, elements, rest);
    case CObject(gap, elements) =>
      ListSpelled(true, gap, elements, rest);
  }

  function Open(named: bool): char {
    if named then '{' else '['
  }

  lemma {:induction false} ListSpelled(named: bool, gap: Gap, cs: seq<CChild>, rest: string)
    requires Blank(gap) && ProperChildren(cs, named)
    ensures var end := [Close(named)] + rest;
            var t := [Open(named)] + if cs == [] then GapText(gap) + end else SpellChildren(cs, end);
            ParseList(t, named) == Ok(ListOf(named, ChildTrees(cs, named)), rest)
    decreases cs, 4
  {
    hide Spell, SpellChildren, GapText, ParseChildren, Skip, Blank, Proper;
    var end := [Close(named)] + rest;
    Tail(Close(named), rest);
    if cs == [] {
      SkipGap(gap, end);
      Tail(Open(named), GapText(gap) + end);
    } else {
      var u := SpellChildren(cs, end);
      Tail(Open(named), u);
      ChildrenSkip(u, named);
      ChildrenSpelled(cs, named, rest);
      ChildrenStart(cs, named, end);
    }
  }

  /** The first character of a child is not a closing bracket. */
  lemma ChildrenStart(cs: seq<CChild>, named: bool, rest: string)
    requires cs != [] && ProperChild(cs[0], named)
    ensures At(Skip(SpellChildren(cs, rest)), 0) != Close(named)
  {
    hide Spell, GapText, Skip, Blank, Proper;
    var c, more := cs[0], if |cs| == 1 then rest else [','] + SpellChildren(cs[1..], rest);
    if named {
      var value := GapText(c.before) + Spell(c.value, GapText(c.after) + more);
      var t := InQuotes(c.name.value.units, GapText(c.name.value.colon) + ([':'] + value));
      SkipGap(c.name.value.before, t);
    } else {
      FirstOf(c.value, GapText(c.after) + more);
      SkipGap(c.before, Spell(c.value, GapText(c.after) + more));
    }
  }

  lemma {:induction false} ChildSpelled(c: CChild, named: bool, rest: string)
    requires ProperChild(c, named) && Ends(rest)
    ensures ParseChild(SpellChild(c, rest), named) == Ok(ChildTree(c, named), GapText(c.after) + rest)
    decreases c, 1
  {
    hide Spell, GapText, ParseValue, ParseString, Skip, Blank, Proper, Decode, UnitsText;
    var more := GapText(c.after) + rest;
    var value := GapText(c.before) + Spell(c.value, more);
    GapEnds(c.after, rest);
    FirstOf(c.value, more);
    SkipGap(c.before, Spell(c.value, more));
    ValueSpelled(c.value, more);
    if named {
      var name := c.name.value;
      var after := [':'] + value;
      StringSpelled(name.units, GapText(name.colon) + after);
      SkipGap(name.before, InQuotes(name.units, GapText(name.colon) + after));
      Tail(':', value);
      SkipGap(name.colon, after);
    }
  }

  lemma {:induction false} ChildrenSpelled(cs: seq<CChild>, named: bool, rest: string)
    requires cs != [] && ProperChildren(cs, named)
    ensures ParseChildren(SpellChildren(cs, [Close(named)] + rest), named) == Ok(ChildTrees(cs, named), rest)
    decreases cs, 2
  {
    hide SpellChild, GapText, ParseChild, Skip, Blank, Proper, ChildTree;
    var end := [Close(named)] + rest;
    var more := if |cs| == 1 then end else [','] + SpellChildren(cs[1..], end);
    Tail(Close(named), rest);
    if |cs| > 1 {
      Tail(',', SpellChildren(cs[1..], end));
      ChildrenSpelled(cs[1..], named, rest);
    } else {
      assert cs[1..] == [];
    }
    ChildSpelled(cs[0], named, more);
    SkipGap(cs[0].after, more);
    var t := SpellChildren(cs, end);
    assert t == SpellChild(cs[0], more);
    assert ChildTrees(cs, named) == [ChildTree(cs[0], named)] + ChildTrees(cs[1..], named);
    if |cs| > 1 {
      assert ParseChildren(more[1..], named) == Ok(ChildTrees(cs[1..], named), rest);
      assert ParseChildren(t, named) == Ok(ChildTrees(cs, named), rest);
    } else {
      assert ChildTrees(cs, named) == [ChildTree(cs[0], named)];
    }
  }

  /** A text of the grammar: a value with white space around it. */
  lemma DocumentParses(before: Gap, c: Cst, after: Gap, requireEnd: bool)
    requires Blank(before) && Proper(c) && Blank(after)
    ensures var r := ParseWithOpts(GapText(before) + Spell(c, GapText(after)), requireEnd);
            r.Ok? && r.value == Tree(c) && r.rest == if requireEnd then [] else GapText(after)
  {
    hide ParseValue, GapText, Blank, Proper, Spell;
    FirstOf(c, GapText(after));
    SkipGap(before, Spell(c, GapText(after)));
    GapEnds(after, []);
    assert GapText(after) + [] == GapText(after);
    ValueSpelled(c, GapText(after));
    SkipGap(after, []);
  }
}
