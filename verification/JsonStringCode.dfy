/** The loops of parse_string, parse_hex4 and print_string_ptr in src/cJSON.c. */
module JsonStringCode {
  import opened Wrappers
  import opened JsonStrings

  /** What parse_hex4 returns: the number of four hex digits, or 0 at the first character that is none. */
  function ReadHex4(t: string): nat {
    if |t| >= 4 && IsHex4(t[..4]) then HexValue(t[..4]) else 0
  }

  method ParseHex4(s: string, p: nat) returns (h: nat)
    requires p <= |s|
    ensures h == ReadHex4(s[p..])
  {
    h := 0;
    ghost var t := s[p..];
    var k := 0;
    while k < 4
      invariant k <= 4 && p + k <= |s|
      invariant forall j :: 0 <= j < k ==> IsHexDigit(t[j])
      invariant k == 0 ==> h == 0
      invariant k == 1 ==> h == HexDigit(t[0])
      invariant k == 2 ==> h == HexDigit(t[0]) * 0x10 + HexDigit(t[1])
      invariant k == 3 ==> h == HexDigit(t[0]) * 0x100 + HexDigit(t[1]) * 0x10 + HexDigit(t[2])
      invariant k == 4
                ==> h == HexDigit(t[0]) * 0x1000 + HexDigit(t[1]) * 0x100 + HexDigit(t[2]) * 0x10 + HexDigit(t[3])
    {
      var c := At(s, p + k);
      if !IsHexDigit(c) {
        assert k < |t| ==> !IsHexDigit(t[k]);
        return 0;
      }
      h := h * 16 + HexDigit(c);
      k := k + 1;
    }
    assert t[..4] == [t[0], t[1], t[2], t[3]];
  }

  /** The table firstByteMark. */
  const FIRST_BYTE_MARK: seq<nat> := [0x00, 0x00, 0xC0, 0xE0, 0xF0, 0xF8, 0xFC]

  /** The code point's bytes are stored from the last to the first. */
  method StoreUtf8(out: array<char>, n: nat, code: nat) returns (next: nat)
    requires code < 0x110000 && n + Utf8Length(code) <= out.Length
    modifies out
    ensures next == n + Utf8Length(code) && out[..n] == old(out[..n]) && out[n..next] == Utf8(code)
  {
    var uc := code;
    var len := 4;
    if uc < 0x80 {
      len := 1;
    } else if uc < 0x800 {
      len := 2;
    } else if uc < 0x10000 {
      len := 3;
    }
    var p := n + len;
    if len >= 4 {
      p := p - 1;
      out[p], uc := Continuation(uc), uc / 64;
    }
    if len >= 3 {
      p := p - 1;
      out[p], uc := Continuation(uc), uc / 64;
    }
    if len >= 2 {
      p := p - 1;
      out[p], uc := Continuation(uc), uc / 64;
    }
    p := p - 1;
    out[p] := (FIRST_BYTE_MARK[len] + uc) as char;
    next := p + len;
  }

  /** The text from `p` on is that of the units `us`, then of `rest`. */
  ghost predicate Reads(s: string, p: nat, us: seq<Unit>, rest: string) {
    UnitsOk(us) && p <= |s| && s[p..] == UnitsText(us) + rest && At(rest, 0) == '"'
  }

  /** The units in `out` so far and those still to be stored make up the whole. */
  ghost predicate Stored(out: seq<char>, n: nat, us: seq<Unit>, whole: string)
    requires UnitsOk(us)
  {
    n <= |out| && out[..n] + Decode(us) == whole && |whole| < |out|
  }

  lemma ReadsOn(s: string, p: nat, us: seq<Unit>, rest: string)
    requires Reads(s, p, us, rest) && us != []
    ensures p + |UnitText(us[0])| <= |s| && s[p..p + |UnitText(us[0])|] == UnitText(us[0])
    ensures forall i :: 0 <= i < |UnitText(us[0])| ==> s[p + i] == UnitText(us[0])[i]
    ensures Reads(s, p + |UnitText(us[0])|, us[1..], rest)
  {
    var k := |UnitText(us[0])|;
    var t := s[p..];
    assert t == UnitText(us[0]) + (UnitsText(us[1..]) + rest);
    assert t[..k] == UnitText(us[0]) && t[k..] == s[p + k..];
    assert forall i :: 0 <= i < k ==> s[p + i] == t[i];
  }

  lemma ReadsEnd(s: string, p: nat, us: seq<Unit>, rest: string)
    requires Reads(s, p, us, rest)
    ensures p < |s| && s[p] != NUL && (s[p] == '"' <==> us == [])
    ensures us != [] ==> (s[p] == '\\' <==> !us[0].Plain?)
    ensures us != [] && !us[0].Plain? ==> p + 1 < |s| && s[p + 1] == (if us[0].Hex? then 'u' else us[0].c)
  {
    if us == [] {
      assert s[p..] == rest;
      assert s[p] == s[p..][0];
    } else {
      ReadsOn(s, p, us, rest);
      assert s[p] == UnitText(us[0])[0];
    }
  }

  /** A hex escape at `p` + 1, where the next unit's number is. */
  lemma ReadsHex(s: string, p: nat, us: seq<Unit>, rest: string)
    requires Reads(s, p, us, rest) && us != [] && us[0].Hex?
    ensures p + 6 <= |s| && ReadHex4(s[p + 2..]) == HexValue(us[0].h)
  {
    ReadsOn(s, p, us, rest);
    assert s[p + 2..][..4] == us[0].h;
  }

  /** Storing the first part of what is left to decode. */
  lemma StoredOn(before: seq<char>, n: nat, us: seq<Unit>, whole: string, after: seq<char>,
                 next: nat, part: string, left: seq<Unit>)
    requires UnitsOk(us) && UnitsOk(left) && Stored(before, n, us, whole) && Decode(us) == part + Decode(left)
    requires n <= next <= |after| == |before| && after[..n] == before[..n] && after[n..next] == part
    ensures Stored(after, next, left, whole)
  {
    hide Decode;
    assert after[..next] == after[..n] + after[n..next];
  }

  lemma RoomLeft(out: seq<char>, n: nat, us: seq<Unit>, whole: string, part: string, left: seq<Unit>)
    requires UnitsOk(us) && UnitsOk(left) && Stored(out, n, us, whole) && Decode(us) == part + Decode(left)
    ensures n + |part| < |out|
  {
    hide Decode;
    assert |whole| == n + |Decode(us)|;
  }

  /** The code point that a hex escape and what follows it come to, and the units consumed: none for 0. */
  function CodePoint(us: seq<Unit>): (code: nat)
    requires UnitsOk(us) && us != [] && us[0].Hex?
    ensures code < 0x110000
  {
    var v := HexValue(us[0].h);
    if IsLow(v) then 0
    else if !IsHigh(v) then v
    else if LowAt(us, 1) then Pair(v, HexValue(us[1].h))
    else 0
  }

  function Consumed(us: seq<Unit>): (k: nat)
    requires UnitsOk(us) && us != [] && us[0].Hex?
    ensures 1 <= k <= 2 && k <= |us|
  {
    if IsHigh(HexValue(us[0].h)) && |us| > 1 && us[1].Hex? then 2 else 1
  }

  lemma DecodeHex(us: seq<Unit>)
    requires UnitsOk(us) && us != [] && us[0].Hex?
    ensures Decode(us) == (if CodePoint(us) == 0 then "" else Utf8(CodePoint(us))) + Decode(us[Consumed(us)..])
  {
    hide HexValue, Utf8, Pair;
  }

  lemma PairForm(hi: nat, lo: nat)
    requires IsHigh(hi) && IsLow(lo)
    ensures 0x10000 + (hi % 0x400 * 0x400 + lo % 0x400) == Pair(hi, lo)
  {
  }

  /** What the tests of ReadEscape see of the units. */
  lemma EscapeSeen(s: string, at: nat, us: seq<Unit>, rest: string)
    requires Reads(s, at, us, rest) && us != [] && us[0].Hex?
    ensures at + 6 <= |s| && ReadHex4(s[at + 2..]) == HexValue(us[0].h) && Reads(s, at + 6, us[1..], rest)
    ensures (At(s, at + 6) == '\\' && At(s, at + 7) == 'u') <==> |us| > 1 && us[1].Hex?
  {
    ReadsHex(s, at, us, rest);
    ReadsOn(s, at, us, rest);
    ReadsEnd(s, at + 6, us[1..], rest);
    assert us[1..] != [] ==> UnitOk(us[1]) && us[1..][0] == us[1];
  }

  /** Case 'u' of parse_string up to the end of its surrogate handling: `ptr` goes to the last character consumed. */
  method ReadEscape(s: string, at: nat, ghost us: seq<Unit>, ghost rest: string) returns (ptr: nat, uc: nat)
    requires Reads(s, at, us, rest) && us != [] && us[0].Hex?
    ensures uc == CodePoint(us) && Reads(s, ptr + 1, us[Consumed(us)..], rest)
  {
    EscapeSeen(s, at, us, rest);
    ghost var more := us[1..];
    if more != [] && more[0].Hex? {
      EscapeSeen(s, at + 6, more, rest);
      assert more[1..] == us[2..] && more[0] == us[1];
    }
    assert UnitsOk(us);
    hide Reads, UnitsOk, UnitOk, ReadHex4, HexValue, Pair;
    ptr := at + 1;
    uc := ParseHex4(s, ptr + 1);
    ptr := ptr + 4;
    if IsLow(uc) || uc == 0 {
      return ptr, 0;
    }
    if IsHigh(uc) {
      if At(s, ptr + 1) != '\\' || At(s, ptr + 2) != 'u' {
        return ptr, 0;
      }
      var uc2 := ParseHex4(s, ptr + 3);
      ptr := ptr + 6;
      if !IsLow(uc2) {
        return ptr, 0;
      }
      PairForm(uc, uc2);
      uc := 0x10000 + (uc % 0x400 * 0x400 + uc2 % 0x400);
    }
  }

  /** One turn of the second pass. */
  method StoreUnit(s: string, at: nat, out: array<char>, n: nat, ghost us: seq<Unit>,
                   ghost rest: string, ghost whole: string)
    returns (ptr: nat, next: nat, ghost left: seq<Unit>)
    requires Reads(s, at, us, rest) && us != [] && Stored(out[..], n, us, whole)
    modifies out
    ensures Reads(s, ptr, left, rest) && |left| < |us| && Stored(out[..], next, left, whole)
  {
    hide Decode, UnitsText, HexValue;
    ReadsEnd(s, at, us, rest);
    ReadsOn(s, at, us, rest);
    ghost var before := out[..];
    if s[at] != '\\' {
      left := us[1..];
      DecodePlain(us);
      RoomLeft(before, n, us, whole, [s[at]], left);
      out[n] := s[at];
      ptr, next := at + 1, n + 1;
      StoredOn(before, n, us, whole, out[..], next, [s[at]], left);
    } else if s[at + 1] != 'u' {
      left := us[1..];
      DecodeSimple(us);
      RoomLeft(before, n, us, whole, [Escaped(s[at + 1])], left);
      out[n] := Escaped(s[at + 1]);
      ptr, next := at + 2, n + 1;
      StoredOn(before, n, us, whole, out[..], next, [Escaped(s[at + 1])], left);
    } else {
      left := us[Consumed(us)..];
      DecodeHex(us);
      var uc;
      ptr, uc := ReadEscape(s, at, us, rest);
      ptr, next := ptr + 1, n;
      if uc != 0 {
        RoomLeft(before, n, us, whole, Utf8(uc), left);
        next := StoreUtf8(out, n, uc);
        StoredOn(before, n, us, whole, out[..], next, Utf8(uc), left);
      } else {
        StoredOn(before, n, us, whole, out[..], next, "", left);
      }
    }
  }

  lemma DecodePlain(us: seq<Unit>)
    requires UnitsOk(us) && us != [] && us[0].Plain?
    ensures Decode(us) == [us[0].c] + Decode(us[1..])
  {
  }

  lemma DecodeSimple(us: seq<Unit>)
    requires UnitsOk(us) && us != [] && us[0].Simple?
    ensures Decode(us) == [Escaped(us[0].c)] + Decode(us[1..])
  {
  }

  /** The first pass. */
  method CountRoom(s: string, i: nat) returns (len: nat)
    requires i < |s| && At(s, i) == '"'
    ensures len == Counted(s[i + 1..]).0
  {
    len := 0;
    var ptr := i + 1;
    while At(s, ptr) != '"' && At(s, ptr) != NUL
      invariant i < ptr <= |s|
      invariant len + Counted(s[ptr..]).0 == Counted(s[i + 1..]).0
      decreases |s| - ptr
    {
      len := len + 1;
      ghost var t := s[ptr..];
      ptr := ptr + 1;
      assert t[1..] == s[ptr..];
      if s[ptr - 1] == '\\' && ptr < |s| {
        ptr := ptr + 1;
        assert t[2..] == s[ptr..];
      }
    }
  }

  /** The second pass, in a buffer one longer than what the first counted. */
  method StoreString(s: string, i: nat, room: nat, ghost units: seq<Unit>, ghost rest: string)
    returns (value: string, ptr: nat)
    requires Reads(s, i + 1, units, rest) && |Decode(units)| <= room
    ensures value == Decode(units) && ptr < |s| && s[ptr] == '"' && s[ptr + 1..] == rest[1..]
  {
    hide Decode, UnitsText;
    var out := new char[room + 1];
    var next: nat := 0;
    ptr := i + 1;
    ghost var us := units;
    while At(s, ptr) != '"' && At(s, ptr) != NUL
      invariant Reads(s, ptr, us, rest) && Stored(out[..], next, us, Decode(units)) && fresh(out)
      decreases |us|
    {
      ReadsEnd(s, ptr, us, rest);
      ptr, next, us := StoreUnit(s, ptr, out, next, us, rest, Decode(units));
    }
    EndOf(s, ptr, us, rest);
    out[next] := NUL;
    value := out[..next];
  }

  /**
   parse_string on a text whose literal, if there is one, is well formed. The two passes give what the
   specification says, inside the room that the first pass counts.
   */
  method ParseStringAt(s: string, i: nat) returns (r: Parsed<string>)
    requires i <= |s| && ParseString(s[i..]) != Overrun
    ensures r == ParseString(s[i..])
  {
    if At(s, i) != '"' {
      return Fail(s[i..]);
    }
    assert s[i..][1..] == s[i + 1..];
    FirstPassSuffices(s[i..]);
    UnitsSpell(s[i + 1..]);
    var room := CountRoom(s, i);
    ghost var (us, rest) := Units(s[i + 1..]).value;
    assert ParseString(s[i..]) == Ok(Decode(us), rest[1..]);
    hide Decode, Units, Counted, UnitsText, ParseString;
    var value, ptr := StoreString(s, i, room, us, rest);
    if At(s, ptr) == '"' {
      ptr := ptr + 1;
    }
    r := Ok(value, s[ptr..]);
  }

  lemma EndOf(s: string, ptr: nat, us: seq<Unit>, rest: string)
    requires Reads(s, ptr, us, rest) && (At(s, ptr) == '"' || At(s, ptr) == NUL)
    ensures us == [] && Decode(us) == "" && ptr < |s| && s[ptr] == '"' && s[ptr + 1..] == rest[1..]
  {
    ReadsEnd(s, ptr, us, rest);
    assert s[ptr..] == rest;
    assert s[ptr..][1..] == s[ptr + 1..];
  }

  // ----- print_string_ptr -----

  /** strchr("\"\\\b\f\n\r\t", token). */
  predicate HasShortEscape(c: char) {
    c == '"' || c == '\\' || c as int == 8 || c as int == 12 || c as int == 10 || c as int == 13 || c as int == 9
  }

  lemma QuotedLength(c: char)
    ensures |UnitText(Quoted(c))| == if HasShortEscape(c) then 2 else if c as int < 32 then 6 else 1
  {
  }

  /** The first pass over a string to print. */
  method CountQuoted(str: string) returns (len: nat)
    requires NUL !in str
    ensures len == |UnitsText(QuotedUnits(str))|
  {
    len := 0;
    var ptr := 0;
    while ptr < |str|
      invariant ptr <= |str| && len + |UnitsText(QuotedUnits(str[ptr..]))| == |UnitsText(QuotedUnits(str))|
    {
      ghost var t := str[ptr..];
      assert t[1..] == str[ptr + 1..];
      QuotedLength(str[ptr]);
      hide UnitText, Quoted;
      len := len + 1;
      if HasShortEscape(str[ptr]) {
        len := len + 1;
      } else if str[ptr] as int < 32 {
        len := len + 5;
      }
      ptr := ptr + 1;
    }
  }

  /** The text that `out` holds before `n`. */
  ghost predicate Holds(out: array<char>, n: nat, text: string)
    reads out
  {
    n == |text| <= out.Length && out[..n] == text
  }

  /** Storing a piece of text one character after the other, as strcpy and sprintf do, with the NUL after it. */
  method Copy(out: array<char>, n: nat, text: string, ghost before: string)
    requires Holds(out, n, before) && n + |text| < out.Length
    modifies out
    ensures Holds(out, n + |text|, before + text) && out[n + |text|] == NUL
  {
    var k := 0;
    while k < |text|
      invariant k <= |text| && Holds(out, n + k, before + text[..k])
    {
      out[n + k] := text[k];
      assert before + text[..k + 1] == (before + text[..k]) + [text[k]];
      k := k + 1;
    }
    out[n + k] := NUL;
    assert text[..k] == text;
  }

  method Put(out: array<char>, n: nat, c: char, ghost before: string)
    requires Holds(out, n, before) && n < out.Length
    modifies out
    ensures Holds(out, n + 1, before + [c])
  {
    out[n] := c;
  }

  /** One turn of the second pass: a character, or a backslash and what stands for the character. */
  method PutQuoted(out: array<char>, n: nat, c: char, ghost before: string) returns (next: nat)
    requires c != NUL && Holds(out, n, before) && n + |UnitText(Quoted(c))| < out.Length
    modifies out
    ensures next == n + |UnitText(Quoted(c))| && Holds(out, next, before + UnitText(Quoted(c)))
  {
    hide Holds;
    QuotedLength(c);
    if c as int > 31 && c != '"' && c != '\\' {
      Put(out, n, c, before);
      return n + 1;
    }
    Put(out, n, '\\', before);
    next := n + 1;
    if HasShortEscape(c) {
      Put(out, next, ShortEscape(c), before + ['\\']);
      next := next + 1;
      assert before + ['\\'] + [ShortEscape(c)] == before + UnitText(Quoted(c));
    } else {
      Copy(out, next, ['u', '0', '0', HEX[c as int / 16], HEX[c as int % 16]], before + ['\\']);
      next := next + 5;
      assert before + ['\\'] + ['u', '0', '0', HEX[c as int / 16], HEX[c as int % 16]] == before + UnitText(Quoted(c));
    }
  }

  /** The cases of the switch in print_string_ptr. */
  function ShortEscape(c: char): (e: char)
    requires HasShortEscape(c)
    ensures Quoted(c) == Simple(e)
  {
    if c == '\\' || c == '"' then c
    else if c as int == 8 then 'b'
    else if c as int == 12 then 'f'
    else if c as int == 10 then 'n'
    else if c as int == 13 then 'r'
    else 't'
  }

  /**
   print_string_ptr: the NUL-terminated text of the string, in exactly the room allocated for it, or no
   text at all for a null pointer.
   */
  method PrintStringPtr(str: Option<string>) returns (out: array<char>)
    requires str.Some? ==> NUL !in str.value
    ensures fresh(out)
    ensures out[..] == (if str.Some? then PrintString(str.value) else "") + [NUL]
  {
    if str.None? {
      out := new char[1][NUL];
      return;
    }
    var s := str.value;
    var len := CountQuoted(s);
    out := new char[len + 3];
    hide Quoted, UnitText;
    Put(out, 0, '"', "");
    var ptr: nat, next: nat := 0, 1;
    ghost var text := "" + ['"'];
    while ptr < |s|
      invariant ptr <= |s| && Holds(out, next, text) && fresh(out)
      invariant text + UnitsText(QuotedUnits(s[ptr..])) + ['"'] == PrintString(s)
    {
      ghost var t := s[ptr..];
      assert t[1..] == s[ptr + 1..];
      PieceFits(text, s, t, out.Length);
      next := PutQuoted(out, next, s[ptr], text);
      text := text + UnitText(Quoted(s[ptr]));
      ptr := ptr + 1;
    }
    assert text + ['"'] == PrintString(s);
    Put(out, next, '"', text);
    Put(out, next + 1, NUL, text + ['"']);
  }

  lemma PieceFits(text: string, s: string, t: string, size: nat)
    requires t != "" && text + UnitsText(QuotedUnits(t)) + ['"'] == PrintString(s) && size == |PrintString(s)| + 1
    ensures |text| + |UnitText(Quoted(t[0]))| < size
    ensures text + UnitText(Quoted(t[0])) + UnitsText(QuotedUnits(t[1..])) + ['"'] == PrintString(s)
  {
    hide Quoted, UnitText, PrintString;
    var us := QuotedUnits(t);
    assert us[0] == Quoted(t[0]) && us[1..] == QuotedUnits(t[1..]);
    assert UnitsText(us) == UnitText(Quoted(t[0])) + UnitsText(QuotedUnits(t[1..]));
    assert text + UnitText(Quoted(t[0])) + UnitsText(QuotedUnits(t[1..])) == text + UnitsText(us);
  }
}
