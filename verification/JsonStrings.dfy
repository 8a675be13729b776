/**
 String literals in src/cJSON.c: parse_string, parse_hex4 and print_string_ptr.

 A C string is the sequence of its characters, without the NUL that ends it; reading at its
 end yields that NUL. The bit operations on code points are written in their arithmetic form,
 which ContinuationBits, MarkBits and PairBits show to be the same on 32-bit words.
 */
module JsonStrings {
  import opened Wrappers

  const NUL: char := 0 as char

  function At(t: string, k: nat): char {
    if k < |t| then t[k] else NUL
  }

  // ----- literals as sequences of units -----

  /** A character that stands for itself, a backslash and a character, or \u and four digits. */
  datatype Unit = Plain(c: char) | Simple(c: char) | Hex(h: string)

  predicate IsHexDigit(c: char) {
    '0' <= c <= '9' || 'A' <= c <= 'F' || 'a' <= c <= 'f'
  }

  function HexDigit(c: char): (d: nat)
    requires IsHexDigit(c)
    ensures d < 16
  {
    if '0' <= c <= '9' then c as int - '0' as int
    else if 'A' <= c <= 'F' then 10 + c as int - 'A' as int
    else 10 + c as int - 'a' as int
  }

  predicate IsHex4(h: string) {
    |h| == 4 && IsHexDigit(h[0]) && IsHexDigit(h[1]) && IsHexDigit(h[2]) && IsHexDigit(h[3])
  }

  function HexValue(h: string): (v: nat)
    requires IsHex4(h)
    ensures v < 0x10000
  {
    HexDigit(h[0]) * 0x1000 + HexDigit(h[1]) * 0x100 + HexDigit(h[2]) * 0x10 + HexDigit(h[3])
  }

  predicate UnitOk(u: Unit) {
    match u
    case Plain(c) => c != NUL && c != '"' && c != '\\'
    case Simple(c) => c != NUL && c != 'u'
    case Hex(h) => IsHex4(h)
  }

  ghost predicate UnitsOk(us: seq<Unit>) {
    forall i :: 0 <= i < |us| ==> UnitOk(us[i])
  }

  function UnitText(u: Unit): (t: string)
    ensures |t| > 0
  {
    match u
    case Plain(c) => [c]
    case Simple(c) => ['\\', c]
    case Hex(h) => ['\\', 'u'] + h
  }

  function UnitsText(us: seq<Unit>): string {
    if us == [] then "" else UnitText(us[0]) + UnitsText(us[1..])
  }

  /** The unit at the head of a literal's text: none where the literal is malformed or unterminated. */
  function HeadUnit(t: string): (u: Option<Unit>)
    ensures u.Some? ==> UnitOk(u.value) && UnitText(u.value) <= t
  {
    if At(t, 0) == NUL || t[0] == '"' then None
    else if t[0] != '\\' then Some(Plain(t[0]))
    else if At(t, 1) == NUL then None
    else if t[1] != 'u' then Some(Simple(t[1]))
    else if |t| >= 6 && IsHex4(t[2..6]) then Some(Hex(t[2..6]))
    else None
  }

  /** A literal's units, and the text from its closing quote on. */
  function Units(t: string): Option<(seq<Unit>, string)>
    decreases |t|
  {
    if At(t, 0) == '"' then Some(([], t))
    else match HeadUnit(t)
      case None => None
      case Some(u) =>
        match Units(t[|UnitText(u)|..])
        case None => None
        case Some(r) => Some(([u] + r.0, r.1))
  }

  lemma {:induction false} UnitsSpell(t: string)
    requires Units(t).Some?
    ensures UnitsOk(Units(t).value.0) && At(Units(t).value.1, 0) == '"'
    ensures t == UnitsText(Units(t).value.0) + Units(t).value.1
    decreases |t|
  {
    hide HeadUnit, UnitText, UnitOk;
    if At(t, 0) == '"' {
      assert Units(t) == Some(([], t));
    } else {
      var u := HeadUnit(t).value;
      var more := t[|UnitText(u)|..];
      UnitsSpell(more);
      var (us, rest) := Units(more).value;
      assert Units(t) == Some(([u] + us, rest));
      assert t == UnitText(u) + more;
      hide Units;
      OneUnitMore(u, us, rest);
    }
  }

  lemma OneUnitMore(u: Unit, us: seq<Unit>, rest: string)
    requires UnitOk(u) && UnitsOk(us)
    ensures UnitsOk([u] + us) && UnitsText([u] + us) + rest == UnitText(u) + (UnitsText(us) + rest)
  {
    hide UnitText, UnitOk;
    assert ([u] + us)[1..] == us;
  }

  lemma HeadUnitOf(u: Unit, rest: string)
    requires UnitOk(u)
    ensures HeadUnit(UnitText(u) + rest) == Some(u)
  {
    if u.Hex? {
      assert (UnitText(u) + rest)[2..6] == u.h;
    }
  }

  /** Reading back the text of units gives the units. */
  lemma {:induction false} UnitsOfText(us: seq<Unit>, rest: string)
    requires UnitsOk(us) && At(rest, 0) == '"'
    ensures Units(UnitsText(us) + rest) == Some((us, rest))
  {
    if us == [] {
      assert UnitsText(us) + rest == rest;
    } else {
      var more := UnitsText(us[1..]) + rest;
      assert UnitsText(us) + rest == UnitText(us[0]) + more;
      HeadUnitOf(us[0], more);
      assert (UnitText(us[0]) + more)[|UnitText(us[0])|..] == more;
      UnitsOfText(us[1..], rest);
      assert us == [us[0]] + us[1..];
    }
  }

  // ----- UTF-8, section 3 of RFC 3629 -----

  function Utf8Length(u: nat): nat {
    if u < 0x80 then 1 else if u < 0x800 then 2 else if u < 0x10000 then 3 else 4
  }

  function Continuation(u: nat): char {
    (0x80 + u % 64) as char
  }

  function Utf8(u: nat): (s: string)
    requires u < 0x110000
    ensures |s| == Utf8Length(u)
  {
    if u < 0x80 then [u as char]
    else if u < 0x800 then [(0xC0 + u / 64) as char, Continuation(u)]
    else if u < 0x10000 then [(0xE0 + u / 64 / 64) as char, Continuation(u / 64), Continuation(u)]
    else [(0xF0 + u / 64 / 64 / 64) as char, Continuation(u / 64 / 64), Continuation(u / 64), Continuation(u)]
  }

  /** What a UTF-8 reader makes of the bytes of one code point. */
  function FromUtf8(s: string): nat
    requires 1 <= |s| <= 4
  {
    if |s| == 1 then s[0] as nat
    else if |s| == 2 then s[0] as nat % 32 * 64 + s[1] as nat % 64
    else if |s| == 3 then (s[0] as nat % 16 * 64 + s[1] as nat % 64) * 64 + s[2] as nat % 64
    else ((s[0] as nat % 8 * 64 + s[1] as nat % 64) * 64 + s[2] as nat % 64) * 64 + s[3] as nat % 64
  }

  /** A leading byte's form and a continuation's form give their bits back. */
  lemma LeadBits(q: nat)
    ensures q < 32 ==> (0xC0 + q) % 32 == q
    ensures q < 16 ==> (0xE0 + q) % 16 == q
    ensures q < 8 ==> (0xF0 + q) % 8 == q
  {
  }

  lemma ContinuationReads(u: nat)
    ensures 0x80 <= Continuation(u) as nat < 0xC0 && Continuation(u) as nat % 64 == u % 64
    ensures u == u / 64 * 64 + u % 64
  {
  }

  /** The form of a first byte for each length: 0xxxxxxx, 110xxxxx, 1110xxxx or 11110xxx. */
  predicate LeadOk(lead: nat, length: nat) {
    match length
    case 1 => lead < 0x80
    case 2 => 0xC0 <= lead < 0xE0
    case 3 => 0xE0 <= lead < 0xF0
    case 4 => 0xF0 <= lead < 0xF8
    case _ => false
  }

  /** The bytes of a code point have the forms of their places, and no shorter sequence would do. */
  lemma Utf8Forms(u: nat)
    requires u < 0x110000
    ensures LeadOk(Utf8(u)[0] as nat, |Utf8(u)|)
    ensures forall i :: 0 < i < |Utf8(u)| ==> 0x80 <= Utf8(u)[i] as nat < 0xC0
    ensures (|Utf8(u)| > 1 ==> u >= 0x80) && (|Utf8(u)| > 2 ==> u >= 0x800) && (|Utf8(u)| > 3 ==> u >= 0x10000)
  {
    ContinuationReads(u);
    if u >= 0x800 {
      ContinuationReads(u / 64);
    }
    if u >= 0x10000 {
      ContinuationReads(u / 64 / 64);
    }
    hide Continuation;
  }

  /** Every code point can be read back from its bytes. */
  lemma Utf8ReadsBack(u: nat)
    requires u < 0x110000
    ensures FromUtf8(Utf8(u)) == u
  {
    ContinuationReads(u);
    if u >= 0x800 {
      ContinuationReads(u / 64);
    }
    if u >= 0x10000 {
      ContinuationReads(u / 64 / 64);
    }
    hide Continuation;
    LeadBits(u / 64);
    LeadBits(u / 64 / 64);
    LeadBits(u / 64 / 64 / 64);
  }

  /** The bit operations of the C code on 32-bit words, and their arithmetic forms. */
  lemma ContinuationBits(u: bv32)
    ensures (u | 0x80) & 0xBF == 0x80 + u % 64 && u >> 6 == u / 64
  {
  }

  lemma MarkBits(u: bv32, mark: bv32)
    requires u & mark == 0
    ensures u | mark == mark + u
  {
  }

  lemma PairBits(hi: bv32, lo: bv32)
    requires 0xD800 <= hi < 0xDC00 <= lo < 0xE000
    ensures 0x10000 + (((hi & 0x3FF) << 10) | (lo & 0x3FF)) == 0x10000 + (hi - 0xD800) * 0x400 + (lo - 0xDC00)
  {
  }

  // ----- what a literal means -----

  predicate IsHigh(v: nat) {
    0xD800 <= v < 0xDC00
  }

  predicate IsLow(v: nat) {
    0xDC00 <= v < 0xE000
  }

  /** The code point of a surrogate pair, section 2.1 of RFC 2781. */
  function Pair(hi: nat, lo: nat): (u: nat)
    requires IsHigh(hi) && IsLow(lo)
    ensures 0x10000 <= u < 0x110000
  {
    0x10000 + (hi - 0xD800) * 0x400 + (lo - 0xDC00)
  }

  function Escaped(c: char): char {
    match c
    case 'b' => 8 as char
    case 'f' => 12 as char
    case 'n' => 10 as char
    case 'r' => 13 as char
    case 't' => 9 as char
    case _ => c
  }

  /** The eight escapes of section 7 of RFC 8259, and what parse_string makes of any other. */
  lemma TheEscapes(c: char)
    ensures Escaped('"') as nat == 0x22 && Escaped('\\') as nat == 0x5C && Escaped('/') as nat == 0x2F
    ensures Escaped('b') as nat == 0x08 && Escaped('f') as nat == 0x0C && Escaped('n') as nat == 0x0A
    ensures Escaped('r') as nat == 0x0D && Escaped('t') as nat == 0x09
    ensures c !in "bfnrt" ==> Escaped(c) == c
  {
  }

  /** The hexadecimal digits of either case. */
  lemma TheHexDigits(d: nat)
    requires d < 16
    ensures IsHexDigit("0123456789abcdef"[d]) && HexDigit("0123456789abcdef"[d]) == d
    ensures IsHexDigit("0123456789ABCDEF"[d]) && HexDigit("0123456789ABCDEF"[d]) == d
  {
  }

  /** Every code point beyond the first plane is that of the pair that section 2.1 of RFC 2781 makes of it. */
  lemma PairsOfAll(u: nat)
    requires 0x10000 <= u < 0x110000
    ensures var hi, lo := 0xD800 + (u - 0x10000) / 0x400, 0xDC00 + (u - 0x10000) % 0x400;
            IsHigh(hi) && IsLow(lo) && Pair(hi, lo) == u
  {
  }

  /** A \u escape whose number is that of the second half of a pair. */
  predicate LowAt(us: seq<Unit>, i: nat)
    requires UnitsOk(us)
  {
    i < |us| && us[i].Hex? && IsLow(HexValue(us[i].h))
  }

  /**
   The meaning: each pair and each other escape by itself, where an unpaired surrogate and the escape of
   NUL contribute nothing.
   */
  function Meaning(us: seq<Unit>): string
    requires UnitsOk(us)
    decreases |us|
  {
    if us == [] then ""
    else match us[0]
      case Plain(c) => [c] + Meaning(us[1..])
      case Simple(c) => [Escaped(c)] + Meaning(us[1..])
      case Hex(h) =>
        var v := HexValue(h);
        if IsHigh(v) && LowAt(us, 1) then Utf8(Pair(v, HexValue(us[1].h))) + Meaning(us[2..])
        else (if v == 0 || IsHigh(v) || IsLow(v) then "" else Utf8(v)) + Meaning(us[1..])
  }

  /**
   What parse_string stores: as above, except that the escape after a first half is consumed with it even
   when it is not a second half.
   */
  function Decode(us: seq<Unit>): string
    requires UnitsOk(us)
    decreases |us|
  {
    if us == [] then ""
    else match us[0]
      case Plain(c) => [c] + Decode(us[1..])
      case Simple(c) => [Escaped(c)] + Decode(us[1..])
      case Hex(h) =>
        var v := HexValue(h);
        if v == 0 || IsLow(v) then Decode(us[1..])
        else if !IsHigh(v) then Utf8(v) + Decode(us[1..])
        else if |us| == 1 || !us[1].Hex? then Decode(us[1..])
        else (if LowAt(us, 1) then Utf8(Pair(v, HexValue(us[1].h))) else "") + Decode(us[2..])
  }

  /** The escape at the head adds to the meaning: it is a scalar other than NUL, or starts a pair. */
  predicate Contributes(us: seq<Unit>)
    requires UnitsOk(us) && us != [] && us[0].Hex?
  {
    var v := HexValue(us[0].h);
    v != 0 && !IsLow(v) && (IsHigh(v) ==> LowAt(us, 1))
  }

  /** Reading from the left, some first half is followed by an escape that is no second half and that contributes. */
  predicate Swallows(us: seq<Unit>)
    requires UnitsOk(us)
    decreases |us|
  {
    us != [] &&
    if us[0].Hex? && IsHigh(HexValue(us[0].h)) && |us| > 1 && us[1].Hex?
    then (!LowAt(us, 1) && Contributes(us[1..])) || Swallows(us[2..])
    else Swallows(us[1..])
  }

  lemma Unfold(us: seq<Unit>)
    requires UnitsOk(us) && |us| > 1
    ensures UnitsOk(us[1..]) && UnitsOk(us[2..]) && us[1..][1..] == us[2..] && us[1..][0] == us[1]
    ensures |us[1..]| == |us| - 1
    ensures LowAt(us[1..], 1) == LowAt(us, 2)
  {
  }

  /** The claim about a literal. */
  ghost predicate Agrees(us: seq<Unit>)
    requires UnitsOk(us)
  {
    && (!Swallows(us) ==> Decode(us) == Meaning(us))
    && (Swallows(us) ==> |Decode(us)| < |Meaning(us)|)
  }

  lemma AgreesNothing(us: seq<Unit>)
    requires us == []
    ensures Agrees(us)
  {
  }

  /** The head is not a first half followed by another escape. */
  lemma AgreesAlone(us: seq<Unit>)
    requires UnitsOk(us) && us != [] && Agrees(us[1..])
    requires !(us[0].Hex? && IsHigh(HexValue(us[0].h)) && |us| > 1 && us[1].Hex?)
    ensures Agrees(us)
  {
    hide Utf8, Pair, HexValue, Escaped;
  }

  lemma AgreesPair(us: seq<Unit>)
    requires UnitsOk(us) && |us| > 1 && Agrees(us[2..])
    requires us[0].Hex? && IsHigh(HexValue(us[0].h)) && LowAt(us, 1)
    ensures Agrees(us)
  {
    hide Utf8, Pair, HexValue, Escaped;
  }

  /** The head is a first half and swallows an escape that does not start a pair. */
  lemma AgreesSwallow(us: seq<Unit>)
    requires UnitsOk(us) && |us| > 1 && Agrees(us[2..]) && us[1].Hex? && !LowAt(us, 1)
    requires us[0].Hex? && IsHigh(HexValue(us[0].h)) && !(IsHigh(HexValue(us[1].h)) && LowAt(us, 2))
    ensures Agrees(us)
  {
    Unfold(us);
    hide Pair, HexValue, Escaped;
    assert Meaning(us) == Meaning(us[1..]);
    assert Decode(us) == Decode(us[2..]);
    assert Swallows(us) == (Contributes(us[1..]) || Swallows(us[2..]));
    var v := HexValue(us[1].h);
    assert Meaning(us[1..]) == (if v == 0 || IsHigh(v) || IsLow(v) then "" else Utf8(v)) + Meaning(us[2..]);
  }

  /** The head is a first half and swallows the first half of a pair. */
  lemma AgreesBroken(us: seq<Unit>)
    requires UnitsOk(us) && |us| > 2 && Agrees(us[3..])
    requires us[0].Hex? && IsHigh(HexValue(us[0].h)) && us[1].Hex? && IsHigh(HexValue(us[1].h)) && LowAt(us, 2)
    ensures Agrees(us)
  {
    Unfold(us);
    Unfold(us[1..]);
    hide Pair, HexValue, Escaped;
    assert us[2..][1..] == us[3..];
    assert us[1..][2..] == us[3..];
    assert Meaning(us) == Meaning(us[1..]);
    assert Decode(us) == Decode(us[2..]) == Decode(us[3..]);
    assert us[2..][0] == us[2];
    assert |Meaning(us[1..])| == 4 + |Meaning(us[3..])|;
  }

  lemma {:induction false} DecodeAgrees(us: seq<Unit>)
    requires UnitsOk(us)
    ensures Agrees(us)
    decreases |us|
  {
    hide Utf8, Pair, HexValue, Escaped, Decode, Meaning, Swallows;
    if us == [] {
      AgreesNothing(us);
    } else if !(us[0].Hex? && IsHigh(HexValue(us[0].h)) && |us| > 1 && us[1].Hex?) {
      DecodeAgrees(us[1..]);
      AgreesAlone(us);
    } else if LowAt(us, 1) {
      DecodeAgrees(us[2..]);
      AgreesPair(us);
    } else if IsHigh(HexValue(us[1].h)) && LowAt(us, 2) {
      DecodeAgrees(us[3..]);
      AgreesBroken(us);
    } else {
      DecodeAgrees(us[2..]);
      AgreesSwallow(us);
    }
  }

  /** parse_string stores the meaning exactly when no escape that contributes is swallowed; else it stores less. */
  lemma DecodeIsMeaning(us: seq<Unit>)
    requires UnitsOk(us)
    ensures Decode(us) == Meaning(us) <==> !Swallows(us)
    ensures Swallows(us) ==> |Decode(us)| < |Meaning(us)|
  {
    DecodeAgrees(us);
  }

  /** A first half followed by the escape of a letter: the letter is lost. */
  lemma LetterLost()
    ensures var us := [Hex("d800"), Hex("0041")];
            UnitsOk(us) && Meaning(us) == "A" && Decode(us) == ""
  {
    var us := [Hex("d800"), Hex("0041")];
    assert HexValue("d800") == 0xD800 && HexValue("0041") == 0x41;
    assert us[1..] == [Hex("0041")] && us[2..] == [] && us[1..][1..] == [];
    assert Meaning(us[1..]) == "A" + Meaning([]);
  }

  // ----- parse_string -----

  /**
   What a parsing function returns: a value and the text left, or the place of the error, or it overruns a
   literal.
   */
  datatype Parsed<T> = Ok(value: T, rest: string) | Fail(ep: string) | Overrun

  function ParseString(t: string): (r: Parsed<string>)
    ensures r.Ok? ==> |r.rest| < |t|
  {
    if At(t, 0) != '"' then Fail(t)
    else match Units(t[1..])
      case None => Overrun
      case Some((us, rest)) =>
        UnitsSpell(t[1..]);
        Ok(Decode(us), rest[1..])
  }

  /** The first pass: the room that it counts, and where it stops. */
  function Counted(t: string): (nat, string)
    decreases |t|
  {
    if At(t, 0) == NUL || t[0] == '"' then (0, t)
    else
      var (n, rest) := Counted(if t[0] == '\\' && |t| > 1 then t[2..] else t[1..]);
      (n + 1, rest)
  }

  function UnitsCount(us: seq<Unit>): nat {
    if us == [] then 0 else UnitsCount(us[1..]) + if us[0].Hex? then 5 else 1
  }

  lemma CountedPlain(c: char, rest: string)
    requires c != NUL && c != '"' && c != '\\'
    ensures Counted([c] + rest) == (Counted(rest).0 + 1, Counted(rest).1)
  {
    assert ([c] + rest)[1..] == rest;
  }

  lemma CountedTwo(c: char, rest: string)
    ensures Counted(['\\', c] + rest) == (Counted(rest).0 + 1, Counted(rest).1)
  {
    assert (['\\', c] + rest)[2..] == rest;
  }

  lemma CountedHex(h: string, rest: string)
    requires IsHex4(h)
    ensures Counted(UnitText(Hex(h)) + rest) == (Counted(rest).0 + 5, Counted(rest).1)
  {
    hide Counted;
    CountedPlain(h[3], rest);
    CountedPlain(h[2], [h[3]] + rest);
    CountedPlain(h[1], [h[2]] + ([h[3]] + rest));
    var t := [h[0]] + ([h[1]] + ([h[2]] + ([h[3]] + rest)));
    CountedPlain(h[0], [h[1]] + ([h[2]] + ([h[3]] + rest)));
    CountedTwo('u', t);
    assert UnitText(Hex(h)) + rest == ['\\', 'u'] + t;
  }

  lemma CountedUnit(u: Unit, rest: string)
    requires UnitOk(u)
    ensures Counted(UnitText(u) + rest) == (Counted(rest).0 + if u.Hex? then 5 else 1, Counted(rest).1)
  {
    hide Counted, IsHex4;
    match u
    case Plain(c) => CountedPlain(c, rest);
    case Simple(c) => CountedTwo(c, rest);
    case Hex(h) => CountedHex(h, rest);
  }

  lemma {:induction false} CountedUnits(us: seq<Unit>, rest: string)
    requires UnitsOk(us) && At(rest, 0) == '"'
    ensures Counted(UnitsText(us) + rest) == (UnitsCount(us), rest)
  {
    if us == [] {
      assert UnitsText(us) + rest == rest;
    } else {
      var more := UnitsText(us[1..]) + rest;
      assert UnitsText(us) + rest == UnitText(us[0]) + more;
      CountedUnits(us[1..], rest);
      hide Counted;
      CountedUnit(us[0], more);
    }
  }

  /** The first pass counts enough room for what the second stores. */
  lemma {:induction false} RoomForDecoded(us: seq<Unit>)
    requires UnitsOk(us)
    ensures |Decode(us)| <= UnitsCount(us)
    decreases |us|
  {
    hide Pair, HexValue, Escaped;
    if us != [] {
      RoomForDecoded(us[1..]);
      if |us| > 1 {
        RoomForDecoded(us[2..]);
        assert us[1..][1..] == us[2..];
      }
    }
  }

  /** The length that the first pass counts for a well-formed literal is enough for what the second pass stores. */
  lemma FirstPassSuffices(t: string)
    requires At(t, 0) == '"' && ParseString(t).Ok?
    ensures |ParseString(t).value| <= Counted(t[1..]).0 && Counted(t[1..]).1 == ['"'] + ParseString(t).rest
  {
    var (us, rest) := Units(t[1..]).value;
    UnitsSpell(t[1..]);
    CountedUnits(us, rest);
    RoomForDecoded(us);
    hide Units, Counted, UnitsText, UnitsCount, Decode;
    assert rest == ['"'] + rest[1..];
  }

  // ----- print_string_ptr -----

  const HEX := "0123456789abcdef"

  function Quoted(c: char): (u: Unit) {
    if c as int > 31 && c != '"' && c != '\\' then Plain(c)
    else if c == '"' || c == '\\' then Simple(c)
    else if c as int == 8 then Simple('b')
    else if c as int == 12 then Simple('f')
    else if c as int == 10 then Simple('n')
    else if c as int == 13 then Simple('r')
    else if c as int == 9 then Simple('t')
    else Hex(['0', '0', HEX[c as int / 16], HEX[c as int % 16]])
  }

  function QuotedUnits(s: string): (us: seq<Unit>)
    ensures |us| == |s|
  {
    if s == "" then [] else [Quoted(s[0])] + QuotedUnits(s[1..])
  }

  function PrintString(s: string): string {
    ['"'] + UnitsText(QuotedUnits(s)) + ['"']
  }

  lemma HexDigitOfHex(d: nat)
    requires d < 16
    ensures IsHexDigit(HEX[d]) && HexDigit(HEX[d]) == d
  {
    assert d in {0, 1, 2, 3, 4, 5, 6, 7, 8, 9, 10, 11, 12, 13, 14, 15};
  }

  lemma QuotedControl(c: char)
    requires 0 < c as int < 32
    ensures var h := ['0', '0', HEX[c as int / 16], HEX[c as int % 16]]; IsHex4(h) && HexValue(h) == c as int
  {
    HexDigitOfHex(0);
    HexDigitOfHex(c as int % 16);
    HexDigitOfHex(c as int / 16);
    assert HEX[0] == '0';
  }

  lemma QuotedOk(c: char)
    requires c != NUL
    ensures UnitOk(Quoted(c)) && Decode([Quoted(c)]) == [c] && !(Quoted(c).Hex? && IsHigh(HexValue(Quoted(c).h)))
  {
    if c as int <= 31 {
      QuotedControl(c);
      hide IsHex4, HexValue;
    }
  }

  /** Units other than first halves decode one by one. */
  lemma DecodeHead(u: Unit, us: seq<Unit>)
    requires UnitOk(u) && UnitsOk(us) && !(u.Hex? && IsHigh(HexValue(u.h)))
    ensures UnitsOk([u] + us) && Decode([u] + us) == Decode([u]) + Decode(us)
  {
    assert ([u] + us)[1..] == us;
  }

  lemma {:induction false} DecodeQuoted(s: string)
    requires NUL !in s
    ensures UnitsOk(QuotedUnits(s)) && Decode(QuotedUnits(s)) == s
  {
    if s != "" {
      QuotedOk(s[0]);
      DecodeQuoted(s[1..]);
      DecodeHead(Quoted(s[0]), QuotedUnits(s[1..]));
      hide Decode, Quoted;
      assert s == [s[0]] + s[1..];
    }
  }

  lemma Quotes(t: string, rest: string)
    ensures var u := (['"'] + t + ['"']) + rest;
            At(u, 0) == '"' && u[1..] == t + (['"'] + rest)
  {
  }

  /** Printing a string and parsing it back gives the string and leaves what follows. */
  lemma StringRoundTrip(s: string, rest: string)
    requires NUL !in s
    ensures ParseString(PrintString(s) + rest) == Ok(s, rest)
  {
    DecodeQuoted(s);
    UnitsOfText(QuotedUnits(s), ['"'] + rest);
    Quotes(UnitsText(QuotedUnits(s)), rest);
    hide Units, Decode, QuotedUnits, UnitsText;
    assert (['"'] + rest)[1..] == rest;
  }
}
