/**
 The printer of src/cJSON.c: what print_value, print_array and print_object write, and that the parser
 reads it back.
 */
module JsonPrint {
  import opened Wrappers
  import opened JsonStrings
  import opened JsonNumbers
  import opened Json

  function Tabs(n: int): (t: string)
    ensures |t| == if n < 0 then 0 else n
  {
    if n <= 0 then [] else ['\t'] + Tabs(n - 1)
  }

  /** Text that is written only when formatting. */
  function If(fmt: bool, t: string): string {
    if fmt then t else []
  }

  /** print_string_ptr of a name: a null pointer gives no text. */
  function PrintName(name: Option<string>): string {
    match name
    case None => []
    case Some(s) => PrintString(s)
  }

  /** print_value, with numbers printed as integers. */
  function Print(item: Item, depth: nat, fmt: bool): string
    decreases item
  {
    match item
    case Null => "null"
    case False => "false"
    case True => "true"
    case Number(number) => PrintNumber(number)
    case String(value) => PrintString(value)
    case Array(children) =>
      if children == [] then "[]" else ['['] + (PrintElements(children, depth + 1, fmt) + [']'])
    case Object(children) =>
      if children == [] then ['{'] + If(fmt, ['\n'] + Tabs(depth - 1)) + ['}']
      else ['{'] + (If(fmt, ['\n']) + (PrintMembers(children, depth + 1, fmt) + (If(fmt, Tabs(depth)) + ['}'])))
  }

  function PrintElements(cs: seq<Child>, depth: nat, fmt: bool): string
    requires cs != []
    decreases cs
  {
    PrintElement(cs[0], depth, fmt)
    + if |cs| == 1 then [] else [','] + (If(fmt, [' ']) + PrintElements(cs[1..], depth, fmt))
  }

  function PrintElement(c: Child, depth: nat, fmt: bool): string
    decreases c
  {
    Print(c.item, depth, fmt)
  }

  function PrintMembers(cs: seq<Child>, depth: nat, fmt: bool): string
    requires cs != []
    decreases cs
  {
    PrintMember(cs[0], depth, fmt)
      + ((if |cs| == 1 then [] else [','])
         + (If(fmt, ['\n']) + if |cs| == 1 then [] else PrintMembers(cs[1..], depth, fmt)))
  }

  function PrintMember(c: Child, depth: nat, fmt: bool): string
    decreases c
  {
    If(fmt, Tabs(depth)) + (PrintName(c.name) + ([':'] + (If(fmt, ['\t']) + Print(c.item, depth, fmt))))
  }

  // ----- printing and parsing back -----

  /** A tree that the printer writes in full: NUL-free strings, names exactly in objects, numbers that an int holds. */
  predicate Printable(item: Item)
    decreases item
  {
    match item
    case Number(number) => IsInt32(number)
    case String(value) => NUL !in value
    case Array(children) => PrintableChildren(children, false)
    case Object(children) => PrintableChildren(children, true)
    case _ => true
  }

  predicate PrintableChild(c: Child, named: bool)
    decreases c
  {
    Printable(c.item) && c.name.Some? == named && (named ==> NUL !in c.name.value)
  }

  predicate PrintableChildren(cs: seq<Child>, named: bool)
    decreases cs
  {
    cs == [] || (PrintableChild(cs[0], named) && PrintableChildren(cs[1..], named))
  }

  function TabGap(n: int): Gap {
    if n <= 0 then [] else [Space('\t')] + TabGap(n - 1)
  }

  function LineGap(fmt: bool, tabs: int): Gap {
    if fmt then [Space('\n')] + TabGap(tabs) else []
  }

  /** The syntax of what is printed. */
  function Syntax(item: Item, depth: nat, fmt: bool): Cst
    decreases item
  {
    match item
    case Null => CNull
    case False => CFalse
    case True => CTrue
    case Number(number) => CNumber(IntLiteral(number))
    case String(value) => CString(QuotedUnits(value))
    case Array(children) => CArray([], Elements(children, depth + 1, fmt, []))
    case Object(children) => CObject(LineGap(fmt, depth - 1), Members(children, depth + 1, fmt))
  }

  function Elements(cs: seq<Child>, depth: nat, fmt: bool, before: Gap): (es: seq<CChild>)
    ensures |es| == |cs|
    decreases cs
  {
    if cs == [] then []
    else [Element(cs[0], depth, fmt, before)] + Elements(cs[1..], depth, fmt, if fmt then [Space(' ')] else [])
  }

  function Element(c: Child, depth: nat, fmt: bool, before: Gap): CChild
    decreases c
  {
    CChild(None, before, Syntax(c.item, depth, fmt), [])
  }

  function Members(cs: seq<Child>, depth: nat, fmt: bool): (ms: seq<CChild>)
    ensures |ms| == |cs|
    decreases cs
  {
    if cs == [] then [] else [CMember(cs[0], depth, fmt, |cs| == 1)] + Members(cs[1..], depth, fmt)
  }

  function CMember(c: Child, depth: nat, fmt: bool, last: bool): CChild
    decreases c
  {
    CChild(Some(CName(LineGap(fmt, depth), if c.name.Some? then QuotedUnits(c.name.value) else [], [])),
           if fmt then [Space('\t')] else [], Syntax(c.item, depth, fmt),
           if last then LineGap(fmt, depth - 1) else [])
  }

  lemma {:induction false} TabGapBlank(n: int)
    ensures Blank(TabGap(n)) && GapText(TabGap(n)) == Tabs(n)
  {
    if n > 0 {
      TabGapBlank(n - 1);
    }
  }

  lemma LineGapBlank(fmt: bool, n: int)
    ensures Blank(LineGap(fmt, n)) && GapText(LineGap(fmt, n)) == If(fmt, ['\n'] + Tabs(n))
  {
    TabGapBlank(n);
  }

  /** The syntax is of the grammar and stands for the tree. */
  lemma {:induction false} SyntaxTree(item: Item, depth: nat, fmt: bool)
    requires Printable(item)
    ensures Proper(Syntax(item, depth, fmt)) && Tree(Syntax(item, depth, fmt)) == item
    decreases item, 2
  {
    hide LiteralOk, Value, IntLiteral, QuotedUnits, Decode, UnitsOk, LineGap, Blank;
    match item
    case Number(number) => IntSpelled(number);
    case String(value) => DecodeQuoted(value);
    case Array(children) =>
      assert Blank([]) by {
        NothingBlank();
      }
      ElementsTree(children, depth + 1, fmt, []);
    case Object(children) =>
      LineGapBlank(fmt, depth - 1);
      MembersTree(children, depth + 1, fmt);
    case _ =>
  }

  lemma NothingBlank()
    ensures Blank([]) && Blank([Space(' ')]) && Blank([Space('\t')])
  {
  }

  lemma {:induction false} ElementsTree(cs: seq<Child>, depth: nat, fmt: bool, before: Gap)
    requires PrintableChildren(cs, false) && Blank(before)
    ensures var es := Elements(cs, depth, fmt, before);
            ProperChildren(es, false) && ChildTrees(es, false) == cs
    decreases cs, 1
  {
    hide Blank, Proper, Syntax, Printable;
    NothingBlank();
    if cs != [] {
      ElementTree(cs[0], depth, fmt, before);
      ElementsTree(cs[1..], depth, fmt, if fmt then [Space(' ')] else []);
    }
  }

  lemma {:induction false} ElementTree(c: Child, depth: nat, fmt: bool, before: Gap)
    requires PrintableChild(c, false) && Blank(before)
    ensures ProperChild(Element(c, depth, fmt, before), false) && ChildTree(Element(c, depth, fmt, before), false) == c
    decreases c, 1
  {
    hide Blank, Proper, Syntax, Printable;
    NothingBlank();
    SyntaxTree(c.item, depth, fmt);
  }

  lemma {:induction false} MembersTree(cs: seq<Child>, depth: nat, fmt: bool)
    requires PrintableChildren(cs, true)
    ensures var ms := Members(cs, depth, fmt);
            ProperChildren(ms, true) && ChildTrees(ms, true) == cs
    decreases cs, 1
  {
    hide Blank, Proper, Syntax, Printable;
    if cs != [] {
      MemberTree(cs[0], depth, fmt, |cs| == 1);
      MembersTree(cs[1..], depth, fmt);
    }
  }

  lemma {:induction false} MemberTree(c: Child, depth: nat, fmt: bool, last: bool)
    requires PrintableChild(c, true)
    ensures ProperChild(CMember(c, depth, fmt, last), true) && ChildTree(CMember(c, depth, fmt, last), true) == c
    decreases c, 1
  {
    hide Blank, Proper, Syntax, Printable, UnitsOk, Decode, QuotedUnits, LineGap;
    NothingBlank();
    LineGapBlank(fmt, depth);
    LineGapBlank(fmt, depth - 1);
    SyntaxTree(c.item, depth, fmt);
    DecodeQuoted(c.name.value);
  }

  // ----- what is printed is the text of that syntax -----

  lemma StringText(s: string, rest: string)
    ensures InQuotes(QuotedUnits(s), rest) == PrintString(s) + rest
  {
    hide QuotedUnits, UnitsText;
    Regroup(['"'] + UnitsText(QuotedUnits(s)), ['"'], rest);
    Regroup(['"'], UnitsText(QuotedUnits(s)), ['"'] + rest);
  }

  lemma NoGap(rest: string)
    ensures GapText([]) + rest == rest && [] + rest == rest
    ensures GapText([Space(' ')]) == [' '] && GapText([Space('\t')]) == ['\t']
  {
  }

  lemma {:induction false} ItemText(item: Item, depth: nat, fmt: bool, rest: string)
    requires Printable(item)
    ensures Spell(Syntax(item, depth, fmt), rest) == Print(item, depth, fmt) + rest
    decreases item, 2
  {
    hide LiteralText, PrintNumber, IntLiteral, QuotedUnits, UnitsText, LineGap, GapText, InQuotes, PrintString;
    match item
    case Number(number) => IntSpelled(number);
    case String(value) => StringText(value, rest);
    case Array(children) =>
      if children == [] {
        NoGap([']'] + rest);
      } else {
        var end := [']'] + rest;
        ElementsText(children, depth + 1, fmt, [], end);
        hide PrintElements;
        NoGap(PrintElements(children, depth + 1, fmt) + end);
        Regroup(['['], PrintElements(children, depth + 1, fmt) + [']'], rest);
        Regroup(PrintElements(children, depth + 1, fmt), [']'], rest);
      }
    case Object(children) => ObjectText(children, depth, fmt, rest);
    case _ =>
  }

  lemma {:induction false} ObjectText(children: seq<Child>, depth: nat, fmt: bool, rest: string)
    requires PrintableChildren(children, true)
    ensures Spell(Syntax(Object(children), depth, fmt), rest) == Print(Object(children), depth, fmt) + rest
    decreases children, 3
  {
    hide LineGap, GapText, If;
    var end := ['}'] + rest;
    if children == [] {
      LineGapBlank(fmt, depth - 1);
      var gap := If(fmt, ['\n'] + Tabs(depth - 1));
      Regroup(['{'] + gap, ['}'], rest);
      Regroup(['{'], gap, end);
    } else {
      MembersText(children, depth + 1, fmt, end);
      hide PrintMembers;
      var body, tail := PrintMembers(children, depth + 1, fmt), If(fmt, Tabs(depth)) + ['}'];
      Regroup(['{'], If(fmt, ['\n']) + (body + tail), rest);
      Regroup(If(fmt, ['\n']), body + tail, rest);
      Regroup(body, tail, rest);
      Regroup(If(fmt, Tabs(depth)), ['}'], rest);
    }
  }

  lemma {:induction false} ElementText(c: Child, depth: nat, fmt: bool, before: Gap, rest: string)
    requires PrintableChild(c, false)
    ensures SpellChild(Element(c, depth, fmt, before), rest) == GapText(before) + (PrintElement(c, depth, fmt) + rest)
    decreases c, 1
  {
    hide GapText, Spell, Syntax, Print, Printable;
    ItemText(c.item, depth, fmt, rest);
    NoGap(rest);
  }

  lemma {:induction false} ElementsText(cs: seq<Child>, depth: nat, fmt: bool, before: Gap, rest: string)
    requires cs != [] && PrintableChildren(cs, false)
    ensures SpellChildren(Elements(cs, depth, fmt, before), rest)
            == GapText(before) + (PrintElements(cs, depth, fmt) + rest)
    decreases cs, 1
  {
    hide GapText, SpellChild, Element, PrintElement, PrintableChild, If;
    var es, sp := Elements(cs, depth, fmt, before), if fmt then [Space(' ')] else [];
    var more := if |cs| == 1 then rest else [','] + SpellChildren(es[1..], rest);
    var first := PrintElement(cs[0], depth, fmt);
    ElementText(cs[0], depth, fmt, before, more);
    if |cs| > 1 {
      ElementsText(cs[1..], depth, fmt, sp, rest);
      var others := PrintElements(cs[1..], depth, fmt);
      IfGap(fmt);
      assert more == [','] + (If(fmt, [' ']) + (others + rest));
      Regroup(first, [','] + (If(fmt, [' ']) + others), rest);
      Regroup([','], If(fmt, [' ']) + others, rest);
      Regroup(If(fmt, [' ']), others, rest);
    } else {
      assert first + [] == first;
    }
  }

  lemma IfSplit(fmt: bool, a: string, b: string)
    ensures If(fmt, a + b) == If(fmt, a) + If(fmt, b)
  {
  }

  lemma IfGap(fmt: bool)
    ensures GapText(if fmt then [Space(' ')] else []) == If(fmt, [' '])
    ensures GapText(if fmt then [Space('\t')] else []) == If(fmt, ['\t'])
    ensures GapText([]) == []
  {
    NoGap([]);
  }

  /** A member, whose text is followed by what formatting puts after the last. */
  lemma {:induction false} MemberText(c: Child, depth: nat, fmt: bool, last: bool, rest: string)
    requires PrintableChild(c, true)
    ensures SpellChild(CMember(c, depth, fmt, last), rest)
            == If(fmt, ['\n'])
               + (PrintMember(c, depth, fmt) + (GapText(if last then LineGap(fmt, depth - 1) else []) + rest))
    decreases c, 1
  {
    hide GapText, Spell, Syntax, Print, Printable, LineGap, QuotedUnits, InQuotes, Tabs;
    var more := GapText(if last then LineGap(fmt, depth - 1) else []) + rest;
    var item := Print(c.item, depth, fmt);
    ItemText(c.item, depth, fmt, more);
    LineGapBlank(fmt, depth);
    IfGap(fmt);
    var name := PrintString(c.name.value);
    var value := If(fmt, ['\t']) + (item + more);
    StringText(c.name.value, [':'] + value);
    NoGap([':'] + value);
    assert SpellChild(CMember(c, depth, fmt, last), rest) == If(fmt, ['\n'] + Tabs(depth)) + (name + ([':'] + value));
    hide PrintString, SpellChild;
    Regroup(If(fmt, ['\n']), If(fmt, Tabs(depth)), name + ([':'] + value));
    Regroup(If(fmt, Tabs(depth)), name + ([':'] + (If(fmt, ['\t']) + item)), more);
    Regroup(name, [':'] + (If(fmt, ['\t']) + item), more);
    Regroup([':'], If(fmt, ['\t']) + item, more);
    Regroup(If(fmt, ['\t']), item, more);
    IfSplit(fmt, ['\n'], Tabs(depth));
  }

  lemma {:induction false} MembersText(cs: seq<Child>, depth: nat, fmt: bool, rest: string)
    requires cs != [] && PrintableChildren(cs, true) && depth > 0
    ensures SpellChildren(Members(cs, depth, fmt), rest)
            == If(fmt, ['\n']) + (PrintMembers(cs, depth, fmt) + (If(fmt, Tabs(depth - 1)) + rest))
    decreases cs, 2
  {
    hide GapText, SpellChild, CMember, PrintMember, PrintableChild, If, Tabs, LineGap;
    var ms := Members(cs, depth, fmt);
    var more := if |cs| == 1 then rest else [','] + SpellChildren(ms[1..], rest);
    var first, line, tabs := PrintMember(cs[0], depth, fmt), If(fmt, ['\n']), If(fmt, Tabs(depth - 1));
    MemberText(cs[0], depth, fmt, |cs| == 1, more);
    LineGapBlank(fmt, depth - 1);
    NoGap(more);
    if |cs| > 1 {
      MembersText(cs[1..], depth, fmt, rest);
      var others := PrintMembers(cs[1..], depth, fmt);
      assert more == [','] + (line + (others + (tabs + rest)));
      Regroup(first, [','] + (line + others), tabs + rest);
      Regroup([','], line + others, tabs + rest);
      Regroup(line, others, tabs + rest);
    } else {
      IfSplit(fmt, ['\n'], Tabs(depth - 1));
      Regroup(first, [] + (line + []), tabs + rest);
      assert [] + (line + []) == line;
      Regroup(line, tabs, rest);
    }
  }

  // ----- round trip -----

  /**
   Parsing what print_value produced, formatted or not and at any depth, gives back the tree and consumes
   the whole text, and nothing of a text after it that does not continue a number.
   */
  lemma PrintParses(item: Item, depth: nat, fmt: bool, rest: string)
    requires Printable(item) && Ends(rest)
    ensures ParseValue(Print(item, depth, fmt) + rest) == Ok(item, rest)
  {
    SyntaxTree(item, depth, fmt);
    ItemText(item, depth, fmt, rest);
    ValueSpelled(Syntax(item, depth, fmt), rest);
  }

  /** cJSON_Print or cJSON_PrintUnformatted, then cJSON_ParseWithOpts. */
  lemma RoundTrip(item: Item, fmt: bool, requireEnd: bool)
    requires Printable(item)
    ensures ParseWithOpts(Print(item, 0, fmt), requireEnd) == Ok(item, [])
  {
    hide Print, Printable, ParseValue, Syntax;
    SyntaxTree(item, 0, fmt);
    ItemText(item, 0, fmt, []);
    FirstOf(Syntax(item, 0, fmt), []);
    PrintParses(item, 0, fmt, []);
    assert Print(item, 0, fmt) + [] == Print(item, 0, fmt);
  }
}
