/**
 What the parser of src/cJSON.c accepts: nothing but texts of a grammar that is that of RFC 8259 with
 more white space and some freedom in numbers; and what it makes of text behind the value.
 */
module JsonAccepts {
  import opened Wrappers
  import opened JsonStrings
  import opened JsonNumbers
  import opened Json
  import opened JsonPrint

  // ----- the wider grammar -----

  /** Any characters up to 32 are white space. */
  predicate LooseGap(g: Gap) {
    forall i :: 0 <= i < |g| ==> g[i].Space? && g[i].c != NUL && g[i].c as int <= 32
  }

  /** The digits before the point may be missing, or begin with one zero; those of an exponent may be missing. */
  predicate LooseNumber(n: Literal) {
    && AllDigits(n.whole) && AllDigits(n.fraction)
    && (|n.whole| > 1 && n.whole[0] == '0' ==> n.whole[1] != '0')
    && (n.exponent.Exponent? ==> (n.exponent.e == 'e' || n.exponent.e == 'E') && AllDigits(n.exponent.digits))
  }

  function ScaleOf(x: Exponent): int
    requires x.Exponent? ==> AllDigits(x.digits)
  {
    if x.NoExponent? then 0 else if x.sign.Minus? then 0 - Accumulate(0, x.digits) else Accumulate(0, x.digits)
  }

  predicate NumberFor(n: Literal, d: Decimal) {
    && LooseNumber(n) && d.neg == n.minus && d.exponent == ScaleOf(n.exponent) - |n.fraction|
    && d.mantissa == Accumulate(Accumulate(0, n.whole), n.fraction)
  }

  /** The syntax, in the wider grammar, stands for the item. */
  ghost predicate Stands(c: Cst, item: Item)
    decreases c
  {
    match c
    case CNull => item.Null?
    case CFalse => item.False?
    case CTrue => item.True?
    case CNumber(literal) =>
      item.Number? && (literal.minus || literal.whole != []) && NumberFor(literal, item.number)
    case CString(units) => item.String? && UnitsOk(units) && item.value == Decode(units)
    case CArray(gap, elements) => item.Array? && LooseGap(gap) && AllStand(elements, item.children, false)
    case CObject(gap, elements) => item.Object? && LooseGap(gap) && AllStand(elements, item.children, true)
  }

  ghost predicate ChildStands(c: CChild, child: Child, named: bool)
    decreases c
  {
    && LooseGap(c.before) && LooseGap(c.after) && Stands(c.value, child.item)
    && c.name.Some? == child.name.Some? == named
    && (named ==> LooseGap(c.name.value.before) && LooseGap(c.name.value.colon) && UnitsOk(c.name.value.units)
                  && child.name.value == Decode(c.name.value.units))
  }

  ghost predicate AllStand(cs: seq<CChild>, children: seq<Child>, named: bool)
    decreases cs
  {
    if cs == [] then children == []
    else children != [] && ChildStands(cs[0], children[0], named) && AllStand(cs[1..], children[1..], named)
  }

  // ----- the grammar of the RFC is part of it -----

  lemma ProperNumber(n: Literal)
    requires LiteralOk(n)
    ensures n.whole != [] && NumberFor(n, Value(n))
  {
    AccumulateOn(0, n.whole, n.fraction);
  }

  lemma {:induction false} ProperStands(c: Cst)
    requires Proper(c)
    ensures Stands(c, Tree(c))
    decreases c, 2
  {
    hide LiteralOk, NumberFor, UnitsOk, Decode, Value;
    match c
    case CNumber(literal) => ProperNumber(literal);
    case CArray(gap, elements) => ProperAllStand(elements, false);
    case CObject(gap, elements) => ProperAllStand(elements, true);
    case _ =>
  }

  lemma {:induction false} ProperChildStands(c: CChild, named: bool)
    requires ProperChild(c, named)
    ensures ChildStands(c, ChildTree(c, named), named)
    decreases c, 1
  {
    ProperStands(c.value);
    hide Stands, Proper, Tree, UnitsOk, Decode;
  }

  lemma {:induction false} ProperAllStand(cs: seq<CChild>, named: bool)
    requires ProperChildren(cs, named)
    ensures AllStand(cs, ChildTrees(cs, named), named)
    decreases cs, 1
  {
    hide ProperChild, ChildStands, ChildTree;
    if cs != [] {
      ProperChildStands(cs[0], named);
      ProperAllStand(cs[1..], named);
    }
  }

  // ----- what has been read is spelled by it -----

  lemma {:induction false} GapRead(t: string) returns (g: Gap)
    ensures LooseGap(g) && t == GapText(g) + Skip(t)
  {
    if At(t, 0) != NUL && At(t, 0) as int <= 32 {
      var more := GapRead(t[1..]);
      g := [Space(t[0])] + more;
      assert g[1..] == more;
      assert t == [t[0]] + t[1..];
      Regroup([t[0]], GapText(more), Skip(t));
    } else {
      g := [];
      assert GapText(g) + t == t;
    }
  }

  lemma StringRead(t: string) returns (us: seq<Unit>)
    requires At(t, 0) == '"' && ParseString(t).Ok?
    ensures UnitsOk(us) && ParseString(t).value == Decode(us) && t == InQuotes(us, ParseString(t).rest)
  {
    UnitsSpell(t[1..]);
    us := Units(t[1..]).value.0;
    var more := Units(t[1..]).value.1;
    assert more == ['"'] + more[1..];
    assert t == ['"'] + t[1..];
  }

  lemma WholeRead(t: string) returns (w: string)
    ensures AllDigits(w) && (|w| > 1 && w[0] == '0' ==> w[1] != '0')
    ensures ReadWhole(t).0 == Accumulate(0, w) && t == w + ReadWhole(t).1 && (IsDigit(At(t, 0)) ==> w != [])
  {
    var zero := if At(t, 0) == '0' then ['0'] else [];
    var u := t[|zero|..];
    var k := LeadingRun(u);
    w := zero + u[..k];
    ZeroFirst(zero, u[..k]);
    hide Accumulate, AllDigits;
    assert t == zero + u;
    Regroup(zero, u[..k], u[k..]);
  }

  /** The digits that the text begins with if the first is not 0. */
  lemma LeadingRun(u: string) returns (k: nat)
    ensures k <= |u| && AllDigits(u[..k]) && (k > 0 ==> u[0] != '0') && u == u[..k] + u[k..]
    ensures k == if '1' <= At(u, 0) <= '9' then DigitRun(u) else 0
  {
    k := if '1' <= At(u, 0) <= '9' then DigitRun(u) else 0;
  }

  lemma ZeroFirst(zero: string, ds: string)
    requires (zero == ['0'] || zero == []) && AllDigits(ds) && (ds != [] ==> ds[0] != '0')
    ensures AllDigits(zero + ds) && Accumulate(0, zero + ds) == Accumulate(0, ds)
    ensures var w := zero + ds; |w| > 1 && w[0] == '0' ==> w[1] != '0'
  {
    AccumulateOn(0, zero, ds);
    assert Accumulate(0, zero) == 0;
  }

  lemma FractionRead(whole: nat, t: string) returns (ds: string)
    ensures AllDigits(ds) && ReadFraction(whole, t).0 == Accumulate(whole, ds) && ReadFraction(whole, t).1 == |ds|
    ensures t == (if ds == [] then [] else ['.'] + ds) + ReadFraction(whole, t).2
  {
    var f := FractionRun(t);
    ds := if f > 0 then t[1..1 + f] else [];
    if f > 0 {
      assert t == (['.'] + t[1..1 + f]) + t[1 + f..];
    } else {
      assert [] + t == t;
    }
  }

  function SignAt(u: string): Sign {
    if At(u, 0) == '+' then Plus else if At(u, 0) == '-' then Minus else NoSign
  }

  lemma SignRead(u: string)
    ensures u == SignText(SignAt(u)) + if At(u, 0) == '+' || At(u, 0) == '-' then u[1..] else u
  {
    assert [] + u == u;
  }

  lemma ExponentRead(t: string) returns (x: Exponent)
    ensures x.Exponent? ==> (x.e == 'e' || x.e == 'E') && AllDigits(x.digits)
    ensures ReadExponent(t).0 == ScaleOf(x) && t == ExponentText(x) + ReadExponent(t).1
  {
    if At(t, 0) != 'e' && At(t, 0) != 'E' {
      x := NoExponent;
      assert [] + t == t;
    } else {
      x := ExponentThere(t);
    }
  }

  lemma ExponentThere(t: string) returns (x: Exponent)
    requires At(t, 0) == 'e' || At(t, 0) == 'E'
    ensures x.Exponent? && (x.e == 'e' || x.e == 'E') && AllDigits(x.digits)
    ensures ReadExponent(t).0 == ScaleOf(x) && t == ExponentText(x) + ReadExponent(t).1
  {
    hide Accumulate, SignText;
    var u := t[1..];
    var v := if At(u, 0) == '+' || At(u, 0) == '-' then u[1..] else u;
    var k := DigitRun(v);
    x := Exponent(t[0], SignAt(u), v[..k]);
    ExponentSplit(t, u, v, k);
  }

  lemma ExponentSplit(t: string, u: string, v: string, k: nat)
    requires t != [] && u == t[1..] && k <= |v|
    requires v == if At(u, 0) == '+' || At(u, 0) == '-' then u[1..] else u
    ensures t == ([t[0]] + (SignText(SignAt(u)) + v[..k])) + v[k..]
  {
    SignRead(u);
    hide SignText, SignAt;
    assert v == v[..k] + v[k..];
    assert t == [t[0]] + u;
    Regroup(SignText(SignAt(u)), v[..k], v[k..]);
    Regroup([t[0]], SignText(SignAt(u)) + v[..k], v[k..]);
  }

  lemma NumberRead(t: string) returns (n: Literal)
    ensures NumberFor(n, ParseNumber(t).0) && t == LiteralText(n) + ParseNumber(t).1
    ensures At(t, 0) == '-' || IsDigit(At(t, 0)) ==> n.minus || n.whole != []
  {
    var minus := if At(t, 0) == '-' then ['-'] else [];
    n := UnsignedRead(t[|minus|..], At(t, 0) == '-');
    hide ParseUnsigned, NumberFor, Unsigned;
    assert t == minus + t[|minus|..];
    Regroup(minus, Unsigned(n), ParseNumber(t).1);
  }

  lemma UnsignedRead(t: string, minus: bool) returns (n: Literal)
    ensures IsDigit(At(t, 0)) ==> n.whole != []
    ensures var (mantissa, exponent, rest) := ParseUnsigned(t);
            n.minus == minus && NumberFor(n, Decimal(minus, mantissa, exponent)) && t == Unsigned(n) + rest
  {
    var whole := WholeRead(t);
    var t2 := ReadWhole(t).1;
    var fraction := FractionRead(ReadWhole(t).0, t2);
    var t3 := ReadFraction(ReadWhole(t).0, t2).2;
    var exponent := ExponentRead(t3);
    n := Literal(minus, whole, fraction, exponent);
    hide ReadWhole, ReadFraction, ReadExponent, ExponentText, Accumulate, AllDigits, ScaleOf, Unsigned;
    NumberParts(n, t, t2, t3, ReadExponent(t3).1);
  }

  lemma NumberParts(n: Literal, t1: string, t2: string, t3: string, rest: string)
    requires t1 == n.whole + t2 && t2 == FractionText(n) + t3 && t3 == ExponentText(n.exponent) + rest
    ensures t1 == Unsigned(n) + rest
  {
    hide ExponentText, FractionText;
    Regroup(FractionText(n), ExponentText(n.exponent), rest);
    Regroup(n.whole, FractionText(n) + ExponentText(n.exponent), rest);
  }

  /** A syntax for what parse_value has read. */
  lemma {:induction false} ValueRead(t: string) returns (c: Cst)
    requires ParseValue(t).Ok?
    ensures Stands(c, ParseValue(t).value) && t == Spell(c, ParseValue(t).rest)
    decreases |t|, 1
  {
    ValueParts(t);
    hide ParseValue, ParseList, ParseString, ParseNumber, Stands, Spell, Begins;
    if Begins(t, "null") || Begins(t, "false") || Begins(t, "true") {
      c := WordRead(t);
    } else if At(t, 0) == '[' || At(t, 0) == '{' {
      c := ListRead(t, At(t, 0) == '{');
    } else {
      c := PlainRead(t);
    }
  }

  lemma ValueParts(t: string)
    requires ParseValue(t).Ok?
    ensures At(t, 0) == '[' || At(t, 0) == '{' ==> ParseValue(t) == ParseList(t, At(t, 0) == '{')
    ensures || Begins(t, "null") || Begins(t, "false") || Begins(t, "true") || At(t, 0) == '[' || At(t, 0) == '{'
            || At(t, 0) == '"' || At(t, 0) == '-' || IsDigit(At(t, 0))
  {
    hide ParseList, ParseString, ParseNumber;
  }

  lemma PlainRead(t: string) returns (c: Cst)
    requires At(t, 0) == '"' || At(t, 0) == '-' || IsDigit(At(t, 0))
    requires ParseValue(t).Ok?
    ensures Stands(c, ParseValue(t).value) && t == Spell(c, ParseValue(t).rest)
  {
    hide ParseList, ParseString, ParseNumber, Begins, NumberFor, LiteralText, UnitsOk, Decode, InQuotes;
    NotAWord(t);
    if At(t, 0) == '"' {
      var us := StringRead(t);
      c := CString(us);
    } else {
      var n := NumberRead(t);
      c := CNumber(n);
    }
  }

  lemma NotAWord(t: string)
    requires At(t, 0) == '"' || At(t, 0) == '-' || IsDigit(At(t, 0))
    ensures !Begins(t, "null") && !Begins(t, "false") && !Begins(t, "true")
  {
  }

  lemma WordRead(t: string) returns (c: Cst)
    requires Begins(t, "null") || Begins(t, "false") || Begins(t, "true")
    ensures ParseValue(t).Ok? && Stands(c, ParseValue(t).value) && t == Spell(c, ParseValue(t).rest)
  {
    hide ParseString, ParseNumber, ParseList;
    if Begins(t, "null") {
      c := CNull;
      assert t == "null" + t[4..];
    } else if Begins(t, "false") {
      c := CFalse;
      assert t == "false" + t[5..];
    } else {
      c := CTrue;
      assert t == "true" + t[4..];
    }
  }

  function Listing(named: bool, gap: Gap, cs: seq<CChild>): Cst {
    if named then CObject(gap, cs) else CArray(gap, cs)
  }

  lemma {:induction false} ListRead(t: string, named: bool) returns (c: Cst)
    requires At(t, 0) == (if named then '{' else '[') && ParseList(t, named).Ok?
    ensures Stands(c, ParseList(t, named).value) && t == Spell(c, ParseList(t, named).rest)
    decreases |t|, 0
  {
    hide Stands, AllStand, ParseList, ParseChildren, Skip, Spell, SpellChildren, Listing, ListOf, LooseGap;
    if At(Skip(t[1..]), 0) == Close(named) {
      c := NoneRead(t, named);
    } else {
      SomeParts(t, named);
      var cs := ChildrenRead(t[1..], named);
      c := Listing(named, [], cs);
      ListStands(named, cs, ParseChildren(t[1..], named).value, ParseChildren(t[1..], named).rest);
      assert t == [t[0]] + t[1..];
    }
  }

  lemma NoneRead(t: string, named: bool) returns (c: Cst)
    requires At(t, 0) == (if named then '{' else '[') && At(Skip(t[1..]), 0) == Close(named)
    ensures Stands(c, ParseList(t, named).value) && t == Spell(c, ParseList(t, named).rest)
  {
    hide ParseChildren, SpellChildren, Skip, GapText, LooseGap, AllStand;
    var u := Skip(t[1..]);
    var gap := GapRead(t[1..]);
    c := Listing(named, gap, []);
    NoneStand(named);
    assert u == [u[0]] + u[1..];
    assert t == [t[0]] + t[1..];
  }

  lemma SomeParts(t: string, named: bool)
    requires t != [] && At(Skip(t[1..]), 0) != Close(named) && ParseList(t, named).Ok?
    ensures var r := ParseChildren(t[1..], named);
            r.Ok? && ParseList(t, named) == Ok(ListOf(named, r.value), r.rest)
  {
    ChildrenSkip(t[1..], named);
    hide ParseChildren, Skip;
  }

  lemma ListStands(named: bool, cs: seq<CChild>, children: seq<Child>, rest: string)
    requires cs != [] && AllStand(cs, children, named)
    ensures Stands(Listing(named, [], cs), ListOf(named, children))
    ensures Spell(Listing(named, [], cs), rest)
         == [if named then '{' else '['] + SpellChildren(cs, [Close(named)] + rest)
  {
    hide AllStand;
  }

  lemma {:induction false} ChildRead(t: string, named: bool) returns (c: CChild)
    requires ParseChild(t, named).Ok?
    ensures c.after == [] && ChildStands(c, ParseChild(t, named).value, named)
    ensures t == SpellChild(c, ParseChild(t, named).rest)
    decreases |t|, 2
  {
    if named {
      NamedParts(t);
      var t1 := Skip(t);
      var t2 := ParseString(t1).rest;
      var t3 := Skip(t2)[1..];
      hide ParseChild, ParseString, ParseValue, Skip, Stands, ChildStands, SpellChild;
      var gap := GapRead(t);
      var us := StringRead(t1);
      var colon := GapRead(t2);
      var before := GapRead(t3);
      var value := ValueRead(Skip(t3));
      c := CChild(Some(CName(gap, us, colon)), before, value, []);
      ChildJoined(c, ParseChild(t, named).value, named, ParseChild(t, named).rest, t);
    } else {
      hide ParseValue, Skip, Stands, ChildStands, SpellChild;
      var gap := GapRead(t);
      var value := ValueRead(Skip(t));
      c := CChild(None, gap, value, []);
      ChildJoined(c, ParseChild(t, named).value, named, ParseChild(t, named).rest, t);
    }
  }

  lemma NamedParts(t: string)
    requires ParseChild(t, true).Ok?
    ensures var s := ParseString(Skip(t));
            && s.Ok? && At(Skip(t), 0) == '"' && |Skip(t)| <= |t|
            && var u := Skip(s.rest);
               && u != [] && u == [':'] + u[1..] && |u| < |t|
               && var v := ParseValue(Skip(u[1..]));
                  && v.Ok? && |Skip(u[1..])| < |t|
                  && ParseChild(t, true) == Ok(Child(Some(s.value), v.value), v.rest)
  {
    hide ParseValue, Skip;
    assert At(Skip(t), 0) == '"' by {
      FailsElsewhere(Skip(t));
    }
    hide ParseString;
  }

  lemma FailsElsewhere(t: string)
    requires ParseString(t).Ok?
    ensures At(t, 0) == '"'
  {
  }

  lemma ChildJoined(c: CChild, child: Child, named: bool, rest: string, t: string)
    requires c.after == [] && LooseGap(c.before) && Stands(c.value, child.item)
    requires c.name.Some? == child.name.Some? == named
    requires named ==> LooseGap(c.name.value.before) && LooseGap(c.name.value.colon) && UnitsOk(c.name.value.units)
    requires named ==> child.name.value == Decode(c.name.value.units)
    requires var value := GapText(c.before) + Spell(c.value, rest);
             t == if named then GapText(c.name.value.before)
                                + InQuotes(c.name.value.units, GapText(c.name.value.colon) + ([':'] + value))
                  else value
    ensures ChildStands(c, child, named) && t == SpellChild(c, rest)
  {
    hide Stands, UnitsOk, Decode, Spell, InQuotes;
    assert c.after == [];
    NoGapBehind(c.after, rest);
  }

  lemma NoGapBehind(gap: Gap, rest: string)
    requires gap == []
    ensures GapText(gap) + rest == rest
  {
  }

  lemma {:induction false} ChildrenRead(t: string, named: bool) returns (cs: seq<CChild>)
    requires ParseChildren(t, named).Ok?
    ensures cs != [] && AllStand(cs, ParseChildren(t, named).value, named)
    ensures t == SpellChildren(cs, [Close(named)] + ParseChildren(t, named).rest)
    decreases |t|, 3
  {
    ChildrenParts(t, named);
    hide ParseChildren, ParseChild, ChildStands, SpellChild, Skip, GapText, LooseGap, AllStand;
    var first := ChildRead(t, named);
    var child, rest := ParseChild(t, named).value, ParseChild(t, named).rest;
    var gap := GapRead(rest);
    var u := Skip(rest);
    var c := first.(after := gap);
    GapBehind(first, child, named, gap, u);
    if At(u, 0) == ',' {
      var more := ChildrenRead(u[1..], named);
      cs := [c] + more;
      assert cs[1..] == more;
      ConsStands(c, more, child, ParseChildren(u[1..], named).value, named);
    } else {
      cs := [c];
      NoneStand(named);
      ConsStands(c, [], child, [], named);
      assert [c] + [] == [c] && [child] + [] == [child];
    }
  }

  lemma NoneStand(named: bool)
    ensures AllStand([], [], named)
  {
  }

  lemma ChildrenParts(t: string, named: bool)
    requires ParseChildren(t, named).Ok?
    ensures var r := ParseChild(t, named);
            && r.Ok? && |r.rest| < |t|
            && var u := Skip(r.rest);
               && u != [] && u == [u[0]] + u[1..] && |u| < |t| && (u[0] == ',' || u[0] == Close(named))
               && (u[0] == ',' ==> var more := ParseChildren(u[1..], named);
                                   more.Ok? && ParseChildren(t, named) == Ok([r.value] + more.value, more.rest))
               && (u[0] != ',' ==> ParseChildren(t, named) == Ok([r.value], u[1..]))
  {
    hide ParseChild, Skip;
  }

  lemma GapBehind(c: CChild, child: Child, named: bool, gap: Gap, u: string)
    requires c.after == [] && ChildStands(c, child, named) && LooseGap(gap)
    ensures ChildStands(c.(after := gap), child, named)
    ensures SpellChild(c.(after := gap), u) == SpellChild(c, GapText(gap) + u)
  {
    hide Stands, LooseGap, Spell;
    NoGapBehind(c.after, GapText(gap) + u);
  }

  lemma ConsStands(c: CChild, cs: seq<CChild>, child: Child, children: seq<Child>, named: bool)
    requires ChildStands(c, child, named) && AllStand(cs, children, named)
    ensures AllStand([c] + cs, [child] + children, named)
  {
    hide ChildStands;
    assert ([c] + cs)[1..] == cs && ([child] + children)[1..] == children;
  }

  /**
   parse_value accepts nothing but texts that begin with a value of the wider grammar, and makes of it what
   it stands for.
   */
  lemma Accepted(t: string)
    requires ParseValue(t).Ok?
    ensures exists c :: Stands(c, ParseValue(t).value) && t == Spell(c, ParseValue(t).rest)
  {
    var c := ValueRead(t);
  }

  // ----- and everything spelled is read -----

  /** What may follow a number of the wider grammar without being taken for more of it. */
  predicate LooseEnds(rest: string) {
    Ends(rest) && At(rest, 0) != '+' && At(rest, 0) != '-'
  }

  lemma WholeSpelledOut(whole: string, more: string)
    requires AllDigits(whole) && (|whole| > 1 && whole[0] == '0' ==> whole[1] != '0') && !IsDigit(At(more, 0))
    ensures ReadWhole(whole + more) == (Accumulate(0, whole), more)
  {
    hide Accumulate, DigitRun;
    var zero := if At(whole, 0) == '0' then ['0'] else [];
    var ds := whole[|zero|..];
    assert whole == zero + ds;
    DigitsBehind(zero, ds);
    ZeroFirst(zero, ds);
    RunBehindZero(ds, more);
    hide AllDigits;
    Regroup(zero, ds, more);
    assert At(whole + more, 0) == '0' <==> zero != [] by {
      HeadOf(whole, more);
    }
    assert zero != [] ==> (['0'] + (ds + more))[1..] == ds + more;
    assert [] + (ds + more) == ds + more;
  }

  lemma DigitsBehind(zero: string, ds: string)
    requires AllDigits(zero + ds)
    ensures AllDigits(ds)
  {
    assert forall i :: 0 <= i < |ds| ==> ds[i] == (zero + ds)[|zero| + i];
  }

  lemma HeadOf(whole: string, more: string)
    requires !IsDigit(At(more, 0))
    ensures At(whole + more, 0) == '0' <==> At(whole, 0) == '0'
  {
    if whole == [] {
      assert whole + more == more;
    }
  }

  lemma RunBehindZero(ds: string, more: string)
    requires AllDigits(ds) && (ds != [] ==> ds[0] != '0') && !IsDigit(At(more, 0))
    ensures (if '1' <= At(ds + more, 0) <= '9' then DigitRun(ds + more) else 0) == |ds|
    ensures (ds + more)[..|ds|] == ds && (ds + more)[|ds|..] == more
  {
    if ds == [] {
      assert ds + more == more;
    } else {
      LeadingSpelled(ds, more);
    }
  }

  lemma LeadingSpelled(ds: string, more: string)
    requires AllDigits(ds) && ds != [] && ds[0] != '0' && !IsDigit(At(more, 0))
    ensures '1' <= At(ds + more, 0) <= '9' && DigitRun(ds + more) == |ds|
    ensures (ds + more)[..|ds|] == ds && (ds + more)[|ds|..] == more
  {
    DigitRunIs(ds, more);
  }

  lemma ExponentSpelledOut(x: Exponent, rest: string)
    requires (x.Exponent? ==> (x.e == 'e' || x.e == 'E') && AllDigits(x.digits)) && LooseEnds(rest)
    ensures ReadExponent(ExponentText(x) + rest) == (ScaleOf(x), rest)
    ensures var f := At(ExponentText(x) + rest, 0); !IsDigit(f) && f != '.' && f != '-'
  {
    if x.Exponent? {
      var v := x.digits + rest;
      SignSpelledOut(x.sign, x.digits, rest);
      Regroup([x.e], SignText(x.sign) + x.digits, rest);
      Regroup(SignText(x.sign), x.digits, rest);
      Tail(x.e, SignText(x.sign) + v);
      DigitRunIs(x.digits, rest);
      hide SignText, AllDigits, DigitRun, Accumulate;
      assert v[..|x.digits|] == x.digits && v[|x.digits|..] == rest;
    } else {
      assert ExponentText(x) + rest == rest;
    }
  }

  lemma SignSpelledOut(sign: Sign, ds: string, rest: string)
    requires AllDigits(ds) && LooseEnds(rest)
    ensures var u := SignText(sign) + (ds + rest);
            && (if At(u, 0) == '+' || At(u, 0) == '-' then u[1..] else u) == ds + rest
            && (At(u, 0) == '-' <==> sign.Minus?)
  {
    var t := ds + rest;
    assert At(t, 0) != '+' && At(t, 0) != '-' by {
      if ds == [] {
        assert t == rest;
      } else {
        assert t[0] == ds[0];
        FirstDigit(ds);
      }
    }
    match sign
    case NoSign => assert SignText(sign) + t == t;
    case Plus => Tail('+', t);
    case Minus => Tail('-', t);
  }

  lemma NoMinusAhead(n: Literal, more: string)
    requires AllDigits(n.whole) && At(more, 0) != '-'
    ensures At(n.whole + (FractionText(n) + more), 0) != '-'
  {
    var t := FractionText(n) + more;
    if n.whole != [] {
      FirstDigit(n.whole);
      assert (n.whole + t)[0] == n.whole[0];
    } else {
      assert n.whole + t == t;
      assert n.fraction == [] ==> t == more;
    }
  }

  /** parse_number reads every number of the wider grammar to its end. */
  lemma NumberReadsOut(n: Literal, d: Decimal, rest: string)
    requires NumberFor(n, d) && LooseEnds(rest)
    ensures ParseNumber(LiteralText(n) + rest) == (d, rest)
  {
    UnsignedReadsOut(n, d, rest);
    hide ParseUnsigned, NumberFor, Unsigned;
    if n.minus {
      Regroup(['-'], Unsigned(n), rest);
      Tail('-', Unsigned(n) + rest);
    } else {
      assert LiteralText(n) == Unsigned(n);
    }
  }

  lemma UnsignedReadsOut(n: Literal, d: Decimal, rest: string)
    requires NumberFor(n, d) && LooseEnds(rest)
    ensures ParseUnsigned(Unsigned(n) + rest) == (d.mantissa, d.exponent, rest) && d.neg == n.minus
    ensures At(Unsigned(n) + rest, 0) != '-'
  {
    hide ReadWhole, ReadFraction, ReadExponent, ExponentText, FractionText, Unsigned;
    hide Accumulate, AllDigits, ScaleOf, LooseEnds, IsDigit;
    var more := ExponentText(n.exponent) + rest;
    var t3 := FractionText(n) + more;
    NumberParts(n, n.whole + t3, t3, more, rest);
    ExponentSpelledOut(n.exponent, rest);
    FractionSpelled(Accumulate(0, n.whole), n, more);
    WholeSpelledOut(n.whole, t3);
    NoMinusAhead(n, more);
  }

  lemma {:induction false} GapSkipped(g: Gap, rest: string)
    requires LooseGap(g) && (At(rest, 0) == NUL || At(rest, 0) as int > 32)
    ensures Skip(GapText(g) + rest) == rest
  {
    if g == [] {
      assert GapText(g) + rest == rest;
    } else {
      assert GapText(g) + rest == [g[0].c] + (GapText(g[1..]) + rest);
      GapSkipped(g[1..], rest);
      Tail(g[0].c, GapText(g[1..]) + rest);
    }
  }

  lemma EndsBehindGap(g: Gap, rest: string)
    requires LooseGap(g) && LooseEnds(rest)
    ensures LooseEnds(GapText(g) + rest)
  {
    if g == [] {
      assert GapText(g) + rest == rest;
    } else {
      assert (GapText(g) + rest)[0] == g[0].c;
    }
  }

  /** A value's first character tells its kind, and is not white space. */
  lemma FirstTells(c: Cst, item: Item, rest: string)
    requires Stands(c, item)
    ensures var f := At(Spell(c, rest), 0);
            && f as int > 32
            && (c.CNumber? <==> f == '-' || IsDigit(f)) && (c.CString? <==> f == '"')
            && (c.CArray? <==> f == '[') && (c.CObject? <==> f == '{')
            && (c.CNull? <==> f == 'n') && (c.CFalse? <==> f == 'f') && (c.CTrue? <==> f == 't')
            && f != ']' && f != '}'
  {
    hide AllStand, Decode, Accumulate;
    if c.CNumber? {
      assert LiteralText(c.literal)[0] == if c.literal.minus then '-' else c.literal.whole[0];
    }
  }

  /** parse_value reads every text of the wider grammar, and makes of it what it stands for. */
  lemma {:induction false} ValueReadsOut(c: Cst, item: Item, rest: string)
    requires Stands(c, item) && (c.CNumber? ==> LooseEnds(rest))
    ensures ParseValue(Spell(c, rest)) == Ok(item, rest)
    decreases c, 0
  {
    hide Units, Decode, ParseNumber, LiteralText, UnitsText, NumberFor, UnitsOk, ParseList;
    var t := Spell(c, rest);
    FirstTells(c, item, rest);
    match c
    case CNull => assert t[4..] == rest;
    case CFalse => assert t[5..] == rest;
    case CTrue => assert t[4..] == rest;
    case CNumber(literal) =>
      NumberReadsOut(literal, item.number, rest);
    case CString(units) =>
      StringSpelled(units, rest);
    case CArray(gap, elements) =>
      ListReadsOut(false, gap, elements, item.children, rest);
    case CObject(gap, elements) =>
      ListReadsOut(true, gap, elements, item.children, rest);
  }

  lemma {:induction false} ListReadsOut(named: bool, gap: Gap, cs: seq<CChild>, children: seq<Child>, rest: string)
    requires LooseGap(gap) && AllStand(cs, children, named)
    ensures var end := [Close(named)] + rest;
            var t := [Open(named)] + if cs == [] then GapText(gap) + end else SpellChildren(cs, end);
            ParseList(t, named) == Ok(ListOf(named, children), rest)
    decreases cs, 4
  {
    hide Spell, SpellChildren, GapText, ParseChildren, Skip, LooseGap, Stands;
    var end := [Close(named)] + rest;
    Tail(Close(named), rest);
    if cs == [] {
      GapSkipped(gap, end);
      Tail(Open(named), GapText(gap) + end);
    } else {
      var u := SpellChildren(cs, end);
      Tail(Open(named), u);
      ChildrenSkip(u, named);
      ChildrenReadOut(cs, children, named, rest);
      NoCloseAhead(cs, children[0], named, end);
    }
  }

  lemma NoCloseAhead(cs: seq<CChild>, child: Child, named: bool, rest: string)
    requires cs != [] && ChildStands(cs[0], child, named)
    ensures At(Skip(SpellChildren(cs, rest)), 0) != Close(named)
  {
    hide Spell, GapText, Skip, LooseGap, Stands;
    var c, more := cs[0], if |cs| == 1 then rest else [','] + SpellChildren(cs[1..], rest);
    if named {
      var value := GapText(c.before) + Spell(c.value, GapText(c.after) + more);
      var t := InQuotes(c.name.value.units, GapText(c.name.value.colon) + ([':'] + value));
      GapSkipped(c.name.value.before, t);
    } else {
      FirstTells(c.value, child.item, GapText(c.after) + more);
      GapSkipped(c.before, Spell(c.value, GapText(c.after) + more));
    }
  }

  lemma {:induction false} ChildReadsOut(c: CChild, child: Child, named: bool, rest: string)
    requires ChildStands(c, child, named) && LooseEnds(rest)
    ensures ParseChild(SpellChild(c, rest), named) == Ok(child, GapText(c.after) + rest)
    decreases c, 1
  {
    hide Spell, GapText, ParseValue, ParseString, Skip, LooseGap, LooseEnds, Stands, Decode, UnitsText, UnitsOk;
    var more := GapText(c.after) + rest;
    var value := GapText(c.before) + Spell(c.value, more);
    EndsBehindGap(c.after, rest);
    FirstTells(c.value, child.item, more);
    GapSkipped(c.before, Spell(c.value, more));
    ValueReadsOut(c.value, child.item, more);
    if named {
      var name := c.name.value;
      var after := [':'] + value;
      StringSpelled(name.units, GapText(name.colon) + after);
      GapSkipped(name.before, InQuotes(name.units, GapText(name.colon) + after));
      Tail(':', value);
      GapSkipped(name.colon, after);
    }
  }

  lemma {:induction false} ChildrenReadOut(cs: seq<CChild>, children: seq<Child>, named: bool, rest: string)
    requires cs != [] && AllStand(cs, children, named)
    ensures ParseChildren(SpellChildren(cs, [Close(named)] + rest), named) == Ok(children, rest)
    decreases cs, 2
  {
    hide SpellChild, GapText, ParseChild, ParseChildren, Skip, LooseGap, Stands;
    var end := [Close(named)] + rest;
    var more := if |cs| == 1 then end else [','] + SpellChildren(cs[1..], end);
    assert LooseEnds(more) && At(more, 0) as int > 32;
    ChildReadsOut(cs[0], children[0], named, more);
    hide ChildStands, LooseEnds;
    GapSkipped(cs[0].after, more);
    assert children == [children[0]] + children[1..];
    if |cs| > 1 {
      ChildrenReadOut(cs[1..], children[1..], named, rest);
      ChildAndMore(SpellChildren(cs, end), named, children[0], GapText(cs[0].after) + more,
                   SpellChildren(cs[1..], end));
    } else {
      assert cs[1..] == [] && children == [children[0]];
      LastChild(SpellChildren(cs, end), named, children[0], GapText(cs[0].after) + more, rest);
    }
  }

  lemma ChildAndMore(t: string, named: bool, child: Child, behind: string, more: string)
    requires ParseChild(t, named) == Ok(child, behind) && Skip(behind) == [','] + more && ParseChildren(more, named).Ok?
    ensures var r := ParseChildren(more, named); ParseChildren(t, named) == Ok([child] + r.value, r.rest)
  {
    Tail(',', more);
    hide ParseChild, Skip;
  }

  lemma LastChild(t: string, named: bool, child: Child, behind: string, rest: string)
    requires ParseChild(t, named) == Ok(child, behind) && Skip(behind) == [Close(named)] + rest
    ensures ParseChildren(t, named) == Ok([child], rest)
  {
    Tail(Close(named), rest);
    hide ParseChild, Skip;
  }

  // ----- the end of the text -----

  /** What follows a spelling is the end of its text. */
  lemma {:induction false} Behind(c: Cst, rest: string) returns (front: string)
    ensures Spell(c, rest) == front + rest
    decreases c, 3
  {
    match c
    case CNull => front := "null";
    case CFalse => front := "false";
    case CTrue => front := "true";
    case CNumber(literal) => front := LiteralText(literal);
    case CString(units) =>
      front := ['"'] + (UnitsText(units) + ['"']);
      Regroup(UnitsText(units), ['"'], rest);
      Regroup(['"'], UnitsText(units) + ['"'], rest);
    case CArray(gap, elements) => front := BehindList(gap, elements, false, rest);
    case CObject(gap, elements) => front := BehindList(gap, elements, true, rest);
  }

  lemma {:induction false} BehindList(gap: Gap, cs: seq<CChild>, named: bool, rest: string) returns (front: string)
    ensures Spell(Listing(named, gap, cs), rest) == front + rest
    decreases cs, 2
  {
    var open, end := [if named then '{' else '['], [Close(named)];
    var inner;
    if cs == [] {
      inner := GapText(gap) + end;
      Regroup(GapText(gap), end, rest);
    } else {
      var before := BehindChildren(cs, end + rest);
      inner := before + end;
      Regroup(before, end, rest);
    }
    front := open + inner;
    Regroup(open, inner, rest);
  }

  lemma {:induction false} BehindChildren(cs: seq<CChild>, rest: string) returns (front: string)
    requires cs != []
    ensures SpellChildren(cs, rest) == front + rest
    decreases cs, 1
  {
    hide SpellChild;
    if |cs| == 1 {
      front := BehindChild(cs[0], rest);
    } else {
      var more := BehindChildren(cs[1..], rest);
      var first := BehindChild(cs[0], [','] + SpellChildren(cs[1..], rest));
      front := first + ([','] + more);
      Regroup([','], more, rest);
      Regroup(first, [','] + more, rest);
    }
  }

  lemma {:induction false} BehindChild(c: CChild, rest: string) returns (front: string)
    ensures SpellChild(c, rest) == front + rest
    decreases c, 0
  {
    var value := Behind(c.value, GapText(c.after) + rest);
    var all := GapText(c.before) + (value + GapText(c.after));
    Regroup(value, GapText(c.after), rest);
    Regroup(GapText(c.before), value + GapText(c.after), rest);
    if c.name.None? {
      front := all;
    } else {
      var name := c.name.value;
      front := BehindName(name, all, rest);
    }
  }

  lemma BehindName(name: CName, all: string, rest: string) returns (front: string)
    ensures GapText(name.before) + InQuotes(name.units, GapText(name.colon) + ([':'] + (all + rest))) == front + rest
  {
    var a := [':'] + all;
    var b := GapText(name.colon) + a;
    var c := ['"'] + b;
    var d := UnitsText(name.units) + c;
    var e := ['"'] + d;
    front := GapText(name.before) + e;
    Regroup([':'], all, rest);
    Regroup(GapText(name.colon), a, rest);
    Regroup(['"'], b, rest);
    Regroup(UnitsText(name.units), c, rest);
    Regroup(['"'], d, rest);
    Regroup(GapText(name.before), e, rest);
  }

  /** Every character is one that skip passes over. */
  predicate AllSkipped(t: string) {
    forall i :: 0 <= i < |t| ==> t[i] as int <= 32
  }

  lemma {:induction false} SkipStops(t: string)
    requires NUL !in t
    ensures AllSkipped(t) <==> Skip(t) == []
    ensures Skip(t) != [] ==> Skip(t)[0] as int > 32
    ensures |Skip(t)| <= |t| && Skip(t) == t[|t| - |Skip(t)|..] && AllSkipped(t[..|t| - |Skip(t)|])
  {
    if t != [] && t[0] as int <= 32 {
      SkipStops(t[1..]);
      var k := |t[1..]| - |Skip(t[1..])|;
      assert t[..k + 1] == [t[0]] + t[1..][..k];
      assert forall i :: 0 < i < |t| ==> t[i] == t[1..][i - 1];
    }
  }

  /**
   cJSON_ParseWithOpts on a C string. When the end is required, what parses without that is accepted exactly
   if nothing but characters up to 32 follows, and then to its end; else the error is at the first
   character beyond 32. What does not parse fails alike.
   */
  lemma RequiredEnd(t: string)
    requires NUL !in t
    ensures ParseWithOpts(t, true).Ok? <==> ParseWithOpts(t, false).Ok? && AllSkipped(ParseWithOpts(t, false).rest)
    ensures ParseWithOpts(t, true).Ok? ==> ParseWithOpts(t, true) == Ok(ParseWithOpts(t, false).value, [])
    ensures !ParseWithOpts(t, false).Ok? ==> ParseWithOpts(t, true) == ParseWithOpts(t, false)
    ensures ParseWithOpts(t, false).Ok? && !AllSkipped(ParseWithOpts(t, false).rest) ==>
              var rest := ParseWithOpts(t, false).rest;
              exists k: nat :: k < |rest| && rest[k] as int > 32 && AllSkipped(rest[..k])
                               && ParseWithOpts(t, true) == Fail(rest[k..])
  {
    if ParseValue(Skip(t)).Ok? {
      RestNulFree(t);
      hide ParseValue;
      var rest := ParseValue(Skip(t)).rest;
      SkipStops(rest);
      hide Skip, AllSkipped;
      var k := |rest| - |Skip(rest)|;
      assert Skip(rest) != [] ==> Skip(rest)[0] == rest[k];
    }
  }

  lemma RestNulFree(t: string)
    requires NUL !in t && ParseValue(Skip(t)).Ok?
    ensures NUL !in ParseValue(Skip(t)).rest
  {
    SkipStops(t);
    hide ParseValue, Skip, Stands, Spell;
    var c := ValueRead(Skip(t));
    var front := Behind(c, ParseValue(Skip(t)).rest);
  }

  /** The text is a value of the wider grammar, with white space around it, that stands for the item. */
  ghost predicate IsDocument(t: string, item: Item) {
    exists c, before, after ::
      Stands(c, item) && LooseGap(before) && LooseGap(after) && t == GapText(before) + Spell(c, GapText(after))
  }

  /** With the end required, cJSON_ParseWithOpts accepts exactly the texts of the wider grammar. */
  lemma AcceptsExactly(t: string, item: Item)
    requires NUL !in t
    ensures ParseWithOpts(t, true) == Ok(item, []) <==> IsDocument(t, item)
  {
    if IsDocument(t, item) {
      var c, before, after :| Stands(c, item) && LooseGap(before) && LooseGap(after)
                              && t == GapText(before) + Spell(c, GapText(after));
      DocumentReadOut(c, item, before, after);
    }
    if ParseWithOpts(t, true) == Ok(item, []) {
      DocumentRead(t, item);
    }
  }

  lemma DocumentReadOut(c: Cst, item: Item, before: Gap, after: Gap)
    requires Stands(c, item) && LooseGap(before) && LooseGap(after)
    ensures ParseWithOpts(GapText(before) + Spell(c, GapText(after)), true) == Ok(item, [])
  {
    hide ParseValue, GapText, LooseGap, Stands, Spell;
    FirstTells(c, item, GapText(after));
    GapSkipped(before, Spell(c, GapText(after)));
    EndsBehindGap(after, []);
    assert GapText(after) + [] == GapText(after);
    ValueReadsOut(c, item, GapText(after));
    GapSkipped(after, []);
  }

  lemma DocumentRead(t: string, item: Item)
    requires NUL !in t && ParseWithOpts(t, true) == Ok(item, [])
    ensures IsDocument(t, item)
  {
    RequiredEnd(t);
    hide ParseValue, GapText, LooseGap, Stands, Spell, Skip;
    var before := GapRead(t);
    var c := ValueRead(Skip(t));
    var rest := ParseValue(Skip(t)).rest;
    var after := GapRead(rest);
    assert GapText(after) + [] == GapText(after);
  }

  // ----- what was parsed can be printed -----

  /** Every number is one that an int holds. */
  predicate IntsOnly(item: Item)
    decreases item
  {
    match item
    case Number(number) => IsInt32(number)
    case Array(children) => IntsOnlyIn(children)
    case Object(children) => IntsOnlyIn(children)
    case _ => true
  }

  predicate IntsOnlyIn(children: seq<Child>)
    decreases children
  {
    children == [] || (IntsOnlyAt(children[0]) && IntsOnlyIn(children[1..]))
  }

  predicate IntsOnlyAt(child: Child)
    decreases child
  {
    IntsOnly(child.item)
  }

  /** No NUL is ever stored, even for \u0000. */
  lemma {:induction false} NothingNul(us: seq<Unit>)
    requires UnitsOk(us)
    ensures NUL !in Decode(us)
    decreases |us|
  {
    hide HexValue;
    if us != [] {
      NothingNul(us[1..]);
      match us[0]
      case Plain(c) =>
      case Simple(c) => assert Escaped(c) != NUL;
      case Hex(h) =>
        if IsHigh(HexValue(h)) && LowAt(us, 1) {
          NothingNul(us[2..]);
          BytesOf(Pair(HexValue(h), HexValue(us[1].h)));
        } else {
          NothingNul(if |us| == 1 then [] else us[2..]);
          if 0 < HexValue(h) {
            BytesOf(HexValue(h));
          }
        }
    }
  }

  lemma BytesOf(u: nat)
    requires 0 < u < 0x110000
    ensures NUL !in Utf8(u)
  {
  }

  /** An item that a text stands for is printed in full exactly if its numbers are integers. */
  lemma {:induction false} StandsPrintable(c: Cst, item: Item)
    requires Stands(c, item)
    ensures Printable(item) <==> IntsOnly(item)
    decreases c, 2
  {
    hide NumberFor, UnitsOk, Decode, IsInt32;
    match c
    case CString(units) => NothingNul(units);
    case CArray(gap, elements) => AllStandPrintable(elements, item.children, false);
    case CObject(gap, elements) => AllStandPrintable(elements, item.children, true);
    case _ =>
  }

  lemma {:induction false} AllStandPrintable(cs: seq<CChild>, children: seq<Child>, named: bool)
    requires AllStand(cs, children, named)
    ensures PrintableChildren(children, named) <==> IntsOnlyIn(children)
    decreases cs, 1
  {
    hide Stands, Printable, IntsOnly, UnitsOk, Decode, LooseGap;
    if cs != [] {
      StandsPrintable(cs[0].value, children[0].item);
      if named {
        NothingNul(cs[0].name.value.units);
      }
      AllStandPrintable(cs[1..], children[1..], named);
    }
  }

  /**
   Whatever text an item was read from, printing the item and parsing what is printed gives the item again,
   if its numbers are integers.
   */
  lemma ParsedPrintsBack(t: string, fmt: bool, requireEnd: bool)
    requires ParseWithOpts(t, requireEnd).Ok? && IntsOnly(ParseWithOpts(t, requireEnd).value)
    ensures var item := ParseWithOpts(t, requireEnd).value;
            Printable(item) && ParseWithOpts(Print(item, 0, fmt), true) == Ok(item, [])
  {
    var item := ParseWithOpts(t, requireEnd).value;
    assert ParseValue(Skip(t)).Ok? && ParseValue(Skip(t)).value == item;
    hide ParseValue, Skip, Stands, Print, Printable, IntsOnly;
    var c := ValueRead(Skip(t));
    StandsPrintable(c, item);
    RoundTrip(item, fmt, true);
  }
}
