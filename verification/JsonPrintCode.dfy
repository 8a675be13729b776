/**
 The second half of print_array and print_object in src/cJSON.c: the entries have been printed and their
 lengths summed, and the output is composed in a buffer of that size. The first half, which walks the
 items in memory, is in module TreePrint.
 */
module JsonPrintCode {
  import opened Wrappers
  import opened JsonStrings
  import opened JsonNumbers
  import opened Json
  import opened JsonPrint
  import opened JsonStringCode

  // ----- the lengths that are summed -----

  function ElementsRoom(cs: seq<Child>, depth: nat, fmt: bool): nat {
    if cs == [] then 0
    else |PrintElement(cs[0], depth, fmt)| + 2 + (if fmt then 1 else 0) + ElementsRoom(cs[1..], depth, fmt)
  }

  function MemberRoom(c: Child, depth: nat, fmt: bool): nat {
    |Print(c.item, depth, fmt)| + |PrintName(c.name)| + 2 + (if fmt then 2 + depth else 0)
  }

  function MembersRoom(cs: seq<Child>, depth: nat, fmt: bool): nat {
    if cs == [] then 0
    else MemberRoom(cs[0], depth, fmt) + MembersRoom(cs[1..], depth, fmt)
  }

  lemma {:induction false} ElementsFit(cs: seq<Child>, depth: nat, fmt: bool)
    requires cs != []
    ensures |PrintElements(cs, depth, fmt)| + 1 <= ElementsRoom(cs, depth, fmt)
  {
    hide PrintElement;
    if |cs| > 1 {
      ElementsFit(cs[1..], depth, fmt);
    }
  }

  lemma {:induction false} MembersFit(cs: seq<Child>, depth: nat, fmt: bool)
    requires cs != []
    ensures |PrintMembers(cs, depth, fmt)| <= MembersRoom(cs, depth, fmt)
  {
    hide Print, PrintName;
    assert |PrintMember(cs[0], depth, fmt)|
        == (if fmt then depth + 1 else 0) + |PrintName(cs[0].name)| + 1 + |Print(cs[0].item, depth, fmt)|;
    hide PrintMember;
    if |cs| > 1 {
      MembersFit(cs[1..], depth, fmt);
    }
  }

  /** print_array's sum is enough for the brackets, the entries, the separators and the NUL. */
  lemma ArrayFits(cs: seq<Child>, depth: nat, fmt: bool)
    requires cs != []
    ensures |Print(Array(cs), depth, fmt)| + 1 <= 5 + ElementsRoom(cs, depth + 1, fmt)
  {
    ElementsFit(cs, depth + 1, fmt);
  }

  /** print_object's sum is enough for the braces, the tabs, the members, the line ends and the NUL. */
  lemma ObjectFits(cs: seq<Child>, depth: nat, fmt: bool)
    requires cs != []
    ensures |Print(Object(cs), depth, fmt)| + 1 <= 7 + (if fmt then depth + 1 else 0) + MembersRoom(cs, depth + 1, fmt)
  {
    MembersFit(cs, depth + 1, fmt);
    hide PrintMembers, MembersRoom;
  }

  lemma EmptyObjectFits(depth: nat, fmt: bool)
    ensures |Print(Object([]), depth, fmt)| + 1 <= if fmt then depth + 4 else 3
  {
  }

  // ----- the code -----

  /** The entries so far are the texts of the items. */
  ghost predicate Collected(entries: seq<string>, cs: seq<Child>, n: nat, depth: nat, fmt: bool) {
    n <= |entries| && n <= |cs| && forall k :: 0 <= k < n ==> entries[k] == Print(cs[k].item, depth, fmt)
  }

  /** The text from child `i` on. */
  function ElementsFrom(cs: seq<Child>, i: nat, depth: nat, fmt: bool): string
    requires i <= |cs|
  {
    if i == |cs| then [] else PrintElements(cs[i..], depth, fmt)
  }

  lemma ElementsStep(cs: seq<Child>, i: nat, depth: nat, fmt: bool)
    requires i < |cs|
    ensures ElementsFrom(cs, i, depth, fmt)
        == Print(cs[i].item, depth, fmt)
            + ((if i == |cs| - 1 then [] else [','] + If(fmt, [' '])) + ElementsFrom(cs, i + 1, depth, fmt))
  {
    hide Print, If;
    var ds := cs[i..];
    assert ds[1..] == cs[i + 1..];
    assert PrintElements(ds, depth, fmt) == PrintElement(ds[0], depth, fmt)
        + if |ds| == 1 then [] else [','] + (If(fmt, [' ']) + PrintElements(ds[1..], depth, fmt));
    if i < |cs| - 1 {
      Regroup([','], If(fmt, [' ']), PrintElements(cs[i + 1..], depth, fmt));
    } else {
      assert [] + ElementsFrom(cs, i + 1, depth, fmt) == [];
    }
  }

  /** One turn of the second loop of print_array. */
  method PutElement(buf: array<char>, ptr: nat, entry: string, last: bool, fmt: bool, ghost text: string)
    returns (next: nat, ghost text': string)
    requires Holds(buf, ptr, text)
    requires ptr + |entry + if last then [] else [','] + If(fmt, [' '])| < buf.Length
    modifies buf
    ensures text' == text + (entry + if last then [] else [','] + If(fmt, [' '])) && Holds(buf, next, text')
  {
    hide Holds;
    Copy(buf, ptr, entry, text);
    next, text' := ptr + |entry|, text + entry;
    if !last {
      Put(buf, next, ',', text');
      next, text' := next + 1, text' + [','];
      if fmt {
        Put(buf, next, ' ', text');
        next, text' := next + 1, text' + [' '];
      }
    }
    assert text' == text + (entry + if last then [] else [','] + If(fmt, [' ']));
  }

  /** print_array once the entries have been printed. */
  method ComposeArray(ghost cs: seq<Child>, depth: nat, fmt: bool, entries: array<string>, len: nat)
    returns (out: string)
    requires cs != [] && entries.Length == |cs| && Collected(entries[..], cs, |cs|, depth + 1, fmt)
    requires |Print(Array(cs), depth, fmt)| < len
    ensures out == Print(Array(cs), depth, fmt)
  {
    ghost var whole := Print(Array(cs), depth, fmt);
    var buf := new char[len];
    Put(buf, 0, '[', []);
    ghost var text := [] + ['['];
    var ptr: nat, i: nat := 1, 0;
    assert cs[0..] == cs;
    hide Print, If, Holds;
    while i < entries.Length
      invariant i <= |cs| && Holds(buf, ptr, text) && fresh(buf)
      invariant text + (ElementsFrom(cs, i, depth + 1, fmt) + [']']) == whole
      invariant Collected(entries[..], cs, |cs|, depth + 1, fmt)
    {
      ElementsStep(cs, i, depth + 1, fmt);
      ghost var more := ElementsFrom(cs, i + 1, depth + 1, fmt);
      ghost var piece := entries[i] + if i == |cs| - 1 then [] else [','] + If(fmt, [' ']);
      Spliced(text, entries[i], if i == |cs| - 1 then [] else [','] + If(fmt, [' ']), more, [']'], whole);
      HeldLength(buf, ptr, text);
      ptr, text := PutElement(buf, ptr, entries[i], i == entries.Length - 1, fmt, text);
      i := i + 1;
    }
    assert text + [']'] == whole;
    HeldLength(buf, ptr, text);
    Put(buf, ptr, ']', text);
    Put(buf, ptr + 1, NUL, text + [']']);
    out := Taken(buf, ptr + 1, whole);
  }

  lemma HeldLength(buf: array<char>, n: nat, text: string)
    requires Holds(buf, n, text)
    ensures n == |text|
  {
  }

  /** The string that a buffer holds after its NUL has been stored. */
  method Taken(buf: array<char>, n: nat, ghost whole: string) returns (out: string)
    requires Holds(buf, n + 1, whole + [NUL])
    ensures out == whole
  {
    out := buf[..n];
    assert buf[..n + 1][..n] == buf[..n];
  }

  lemma Spliced(text: string, a: string, b: string, more: string, end: string, whole: string)
    requires text + ((a + (b + more)) + end) == whole
    ensures text + (a + b) + (more + end) == whole && |text| + |a + b| + |end| <= |whole|
  {
    assert text + (a + b) + (more + end) == text + ((a + (b + more)) + end);
  }

  // ----- print_object -----

  ghost predicate Named(names: seq<string>, cs: seq<Child>, n: nat) {
    n <= |names| && n <= |cs| && forall k :: 0 <= k < n ==> names[k] == PrintName(cs[k].name)
  }

  /** print_string_ptr of a name, as a string. */
  method PrintNamePtr(name: Option<string>) returns (out: string)
    requires name.Some? ==> NUL !in name.value
    ensures out == PrintName(name)
  {
    var buf := PrintStringPtr(name);
    assert buf[..buf.Length - 1] == PrintName(name);
    out := buf[..buf.Length - 1];
  }

  function MembersFrom(cs: seq<Child>, i: nat, depth: nat, fmt: bool): string
    requires i <= |cs|
  {
    if i == |cs| then [] else PrintMembers(cs[i..], depth, fmt)
  }

  /** A member with its comma and line end. */
  function MemberLine(name: string, entry: string, last: bool, depth: nat, fmt: bool): string {
    If(fmt, Tabs(depth))
    + (name + ([':'] + (If(fmt, ['\t']) + (entry + ((if last then [] else [',']) + If(fmt, ['\n']))))))
  }

  lemma MembersStep(cs: seq<Child>, i: nat, depth: nat, fmt: bool)
    requires i < |cs|
    ensures MembersFrom(cs, i, depth, fmt)
        == MemberLine(PrintName(cs[i].name), Print(cs[i].item, depth, fmt), i == |cs| - 1, depth, fmt)
            + MembersFrom(cs, i + 1, depth, fmt)
  {
    hide Print, If, PrintName;
    var ds := cs[i..];
    assert ds[1..] == cs[i + 1..];
    assert PrintMembers(ds, depth, fmt) == PrintMember(ds[0], depth, fmt)
        + ((if |ds| == 1 then [] else [','])
           + (If(fmt, ['\n']) + if |ds| == 1 then [] else PrintMembers(ds[1..], depth, fmt)));
    var name, entry, more := PrintName(cs[i].name), Print(cs[i].item, depth, fmt), MembersFrom(cs, i + 1, depth, fmt);
    var comma := if i == |cs| - 1 then [] else [','];
    var tabs, tab, line := If(fmt, Tabs(depth)), If(fmt, ['\t']), If(fmt, ['\n']);
    assert MembersFrom(cs, i, depth, fmt) == (tabs + (name + ([':'] + (tab + entry)))) + (comma + (line + more));
    MemberGroups(tabs, name, [':'], tab, entry, comma, line, more);
  }

  lemma MemberGroups(a: string, b: string, c: string, d: string, e: string, f: string, g: string, h: string)
    ensures (a + (b + (c + (d + e)))) + (f + (g + h)) == (a + (b + (c + (d + (e + (f + g)))))) + h
  {
    Regroup(a, b + (c + (d + e)), f + (g + h));
    Regroup(b, c + (d + e), f + (g + h));
    Regroup(c, d + e, f + (g + h));
    Regroup(d, e, f + (g + h));
    Regroup(f, g, h);
    Regroup(e, f + g, h);
    Regroup(d, e + (f + g), h);
    Regroup(c, d + (e + (f + g)), h);
    Regroup(b, c + (d + (e + (f + g))), h);
    Regroup(a, b + (c + (d + (e + (f + g)))), h);
  }

  /** A loop that writes tabs. */
  method PutTabs(buf: array<char>, ptr: nat, n: int, ghost text: string) returns (next: nat)
    requires Holds(buf, ptr, text) && ptr + |Tabs(n)| < buf.Length
    modifies buf
    ensures Holds(buf, next, text + Tabs(n))
  {
    next := ptr;
    ghost var all := text;
    var j := 0;
    assert all + Tabs(n) == text + Tabs(n);
    while j < n
      invariant 0 <= j && (j <= n || n < 0) && Holds(buf, next, all) && next == ptr + j
      invariant all + Tabs(n - j) == text + Tabs(n)
    {
      Regroup(all, ['\t'], Tabs(n - j - 1));
      Put(buf, next, '\t', all);
      all := all + ['\t'];
      next, j := next + 1, j + 1;
    }
    assert Tabs(n - j) == [];
  }

  method PutIf(buf: array<char>, ptr: nat, fmt: bool, c: char, ghost text: string) returns (next: nat)
    requires Holds(buf, ptr, text) && (fmt ==> ptr < buf.Length)
    modifies buf
    ensures Holds(buf, next, text + If(fmt, [c]))
  {
    next := ptr;
    if fmt {
      Put(buf, ptr, c, text);
      next := ptr + 1;
    } else {
      assert text + [] == text;
    }
  }

  /** One turn of the second loop of print_object, up to the value. */
  method PutName(buf: array<char>, ptr: nat, name: string, depth: nat, fmt: bool, ghost text: string)
    returns (next: nat)
    requires Holds(buf, ptr, text) && ptr + |If(fmt, Tabs(depth))| + |name| + 1 + |If(fmt, ['\t'])| < buf.Length
    modifies buf
    ensures Holds(buf, next, text + If(fmt, Tabs(depth)) + name + [':'] + If(fmt, ['\t']))
  {
    hide Holds, Tabs;
    HeldLength(buf, ptr, text);
    next := ptr;
    if fmt {
      next := PutTabs(buf, ptr, depth, text);
    } else {
      assert text + If(fmt, Tabs(depth)) == text;
    }
    HeldLength(buf, next, text + If(fmt, Tabs(depth)));
    Copy(buf, next, name, text + If(fmt, Tabs(depth)));
    next := next + |name|;
    Put(buf, next, ':', text + If(fmt, Tabs(depth)) + name);
    next := PutIf(buf, next + 1, fmt, '\t', text + If(fmt, Tabs(depth)) + name + [':']);
  }

  /** The rest of the turn. */
  method PutEntry(buf: array<char>, ptr: nat, entry: string, last: bool, fmt: bool, ghost text: string)
    returns (next: nat)
    requires Holds(buf, ptr, text) && ptr + |entry| + (if last then 0 else 1) + |If(fmt, ['\n'])| < buf.Length
    modifies buf
    ensures Holds(buf, next, text + entry + (if last then [] else [',']) + If(fmt, ['\n']))
  {
    hide Holds;
    HeldLength(buf, ptr, text);
    Copy(buf, ptr, entry, text);
    next := PutIf(buf, ptr + |entry|, !last, ',', text + entry);
    HeldLength(buf, next, text + entry + If(!last, [',']));
    next := PutIf(buf, next, fmt, '\n', text + entry + If(!last, [',']));
  }

  method PutMember(buf: array<char>, ptr: nat, name: string, entry: string, last: bool, depth: nat,
                   fmt: bool, ghost text: string)
    returns (next: nat)
    requires Holds(buf, ptr, text) && ptr + |MemberLine(name, entry, last, depth, fmt)| < buf.Length
    modifies buf
    ensures Holds(buf, next, text + MemberLine(name, entry, last, depth, fmt))
  {
    hide Holds, Tabs;
    HeldLength(buf, ptr, text);
    next := PutName(buf, ptr, name, depth, fmt, text);
    ghost var text' := text + If(fmt, Tabs(depth)) + name + [':'] + If(fmt, ['\t']);
    HeldLength(buf, next, text');
    next := PutEntry(buf, next, entry, last, fmt, text');
    hide If, MemberLine;
    var comma := if last then [] else [','];
    LineGroups(text, If(fmt, Tabs(depth)), name, [':'], If(fmt, ['\t']), entry, comma, If(fmt, ['\n']));
    LineIs(name, entry, last, depth, fmt);
  }

  lemma LineIs(name: string, entry: string, last: bool, depth: nat, fmt: bool)
    ensures MemberLine(name, entry, last, depth, fmt)
        == If(fmt, Tabs(depth))
           + (name + ([':'] + (If(fmt, ['\t']) + (entry + ((if last then [] else [',']) + If(fmt, ['\n']))))))
  {
  }

  lemma LineGroups(t: string, a: string, b: string, c: string, d: string, e: string, f: string, g: string)
    ensures t + a + b + c + d + e + f + g == t + (a + (b + (c + (d + (e + (f + g))))))
  {
    Regroup(t, a, b + (c + (d + (e + (f + g)))));
    Regroup(t + a, b, c + (d + (e + (f + g))));
    Regroup(t + a + b, c, d + (e + (f + g)));
    Regroup(t + a + b + c, d, e + (f + g));
    Regroup(t + a + b + c + d, e, f + g);
    Regroup(t + a + b + c + d + e, f, g);
  }

  method PrintEmptyObject(depth: nat, fmt: bool) returns (out: string)
    ensures out == Print(Object([]), depth, fmt)
  {
    hide Holds, Print, Tabs, If;
    EmptyObjectFits(depth, fmt);
    EmptyObjectText(depth, fmt);
    var buf := new char[if fmt then depth + 4 else 3];
    StartOf(buf);
    Put(buf, 0, '{', []);
    ghost var text := [] + ['{'];
    var ptr: nat := 1;
    if fmt {
      Put(buf, ptr, '\n', text);
      ptr := PutTabs(buf, ptr + 1, depth - 1, text + ['\n']);
      text := text + ['\n'] + Tabs(depth - 1);
    }
    HeldLength(buf, ptr, text);
    Put(buf, ptr, '}', text);
    Put(buf, ptr + 1, NUL, text + ['}']);
    out := Taken(buf, ptr + 1, text + ['}']);
  }

  lemma StartOf(buf: array<char>)
    ensures Holds(buf, 0, [])
  {
  }

  lemma EmptyObjectText(depth: nat, fmt: bool)
    ensures fmt ==> Print(Object([]), depth, fmt) == [] + ['{'] + ['\n'] + Tabs(depth - 1) + ['}']
    ensures !fmt ==> Print(Object([]), depth, fmt) == [] + ['{'] + ['}']
  {
    assert [] + ['{'] == ['{'];
    Regroup(['{'], ['\n'], Tabs(depth - 1));
  }

  /** Everything before the first member. */
  method OpenObject(buf: array<char>, fmt: bool) returns (ptr: nat)
    requires 1 + |If(fmt, ['\n'])| <= buf.Length
    modifies buf
    ensures Holds(buf, ptr, ['{'] + If(fmt, ['\n']))
  {
    Put(buf, 0, '{', []);
    assert [] + ['{'] == ['{'];
    ptr := PutIf(buf, 1, fmt, '\n', ['{']);
  }

  lemma ObjectParts(cs: seq<Child>, depth: nat, fmt: bool)
    requires cs != []
    ensures var end := If(fmt, Tabs(depth)) + ['}'];
            Print(Object(cs), depth, fmt) == (['{'] + If(fmt, ['\n'])) + (MembersFrom(cs, 0, depth + 1, fmt) + end)
  {
    hide PrintMembers;
    assert cs[0..] == cs;
    Regroup(['{'], If(fmt, ['\n']), MembersFrom(cs, 0, depth + 1, fmt) + (If(fmt, Tabs(depth)) + ['}']));
  }

  /** print_object once the names and the entries have been printed. */
  method ComposeObject(ghost cs: seq<Child>, depth: nat, fmt: bool,
                       names: array<string>, entries: array<string>, len: nat)
    returns (out: string)
    requires cs != [] && entries.Length == names.Length == |cs|
    requires Collected(entries[..], cs, |cs|, depth + 1, fmt) && Named(names[..], cs, |cs|)
    requires |Print(Object(cs), depth, fmt)| < len
    ensures out == Print(Object(cs), depth, fmt)
  {
    hide Print, If, Holds, PrintName, MemberLine, Tabs, MembersFrom;
    ghost var whole := Print(Object(cs), depth, fmt);
    ghost var end := If(fmt, Tabs(depth)) + ['}'];
    ObjectParts(cs, depth, fmt);
    var buf := new char[len];
    var ptr: nat := OpenObject(buf, fmt);
    ghost var text := ['{'] + If(fmt, ['\n']);
    var i: nat := 0;
    while i < entries.Length
      invariant i <= |cs| && Holds(buf, ptr, text) && fresh(buf)
      invariant text + (MembersFrom(cs, i, depth + 1, fmt) + end) == whole
      invariant Collected(entries[..], cs, |cs|, depth + 1, fmt) && Named(names[..], cs, |cs|)
    {
      MembersStep(cs, i, depth + 1, fmt);
      ghost var line := MemberLine(names[i], entries[i], i == |cs| - 1, depth + 1, fmt);
      LineFits(text, line, MembersFrom(cs, i + 1, depth + 1, fmt), end, whole);
      HeldLength(buf, ptr, text);
      ptr := PutMember(buf, ptr, names[i], entries[i], i == entries.Length - 1, depth + 1, fmt, text);
      text := text + line;
      i := i + 1;
    }
    NoMembers(cs, depth + 1, fmt, end);
    out := CloseObject(buf, ptr, depth, fmt, text, whole);
  }

  lemma NoMembers(cs: seq<Child>, depth: nat, fmt: bool, end: string)
    ensures MembersFrom(cs, |cs|, depth, fmt) + end == end
  {
  }

  method CloseObject(buf: array<char>, at: nat, depth: nat, fmt: bool, ghost text: string, ghost whole: string)
    returns (out: string)
    requires Holds(buf, at, text) && |whole| < buf.Length && text + (If(fmt, Tabs(depth)) + ['}']) == whole
    modifies buf
    ensures out == whole
  {
    HeldLength(buf, at, text);
    hide Holds;
    var ptr := at;
    if fmt {
      ptr := PutTabs(buf, ptr, depth, text);
    } else {
      assert text + If(fmt, Tabs(depth)) == text;
    }
    HeldLength(buf, ptr, text + If(fmt, Tabs(depth)));
    Regroup(text, If(fmt, Tabs(depth)), ['}']);
    Put(buf, ptr, '}', text + If(fmt, Tabs(depth)));
    Put(buf, ptr + 1, NUL, whole);
    out := Taken(buf, ptr + 1, whole);
  }

  lemma LineFits(text: string, line: string, more: string, end: string, whole: string)
    requires text + ((line + more) + end) == whole && end != []
    ensures (text + line) + (more + end) == whole && |text| + |line| < |whole|
  {
    Regroup(line, more, end);
    Regroup(text, line, more + end);
  }
}
