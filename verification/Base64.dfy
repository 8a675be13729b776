/**
 base64.c: the encoder, the four-state decoder that writes partial bytes into its
 target as it goes, and the two length functions. The reference is section 4 of
 RFC 4648 (24-bit groups, one or two padding characters, pad bits zero).
 */
module Base64 {
  import opened Wrappers

  type Byte = bv8
  type Sextet = d: bv8 | d < 64 witness 0
  type CString = s: string | '\0' !in s witness ""

  const UPPER_1: string := "ABCDEFGHIJKLM"
  const UPPER_2: string := "NOPQRSTUVWXYZ"
  const LOWER_1: string := "abcdefghijklm"
  const LOWER_2: string := "nopqrstuvwxyz"
  const OTHERS: string := "0123456789+/"
  const ALPHABET: string := UPPER_1 + UPPER_2 + LOWER_1 + LOWER_2 + OTHERS
  const PAD := '='

  // ----- the alphabet -----

  function CharOf(k: nat): char
    requires k < 64
  {
    if k < 26 then (65 + k) as char
    else if k < 52 then (71 + k) as char
    else if k < 62 then (k - 4) as char
    else if k == 62 then '+' else '/'
  }

  /** The place of `c` in the alphabet. */
  function Place(c: char): (k: Option<nat>)
    ensures k.Some? ==> k.value < 64 && CharOf(k.value) == c
  {
    if 'A' <= c <= 'Z' then Some(c as int - 65)
    else if 'a' <= c <= 'z' then Some(c as int - 71)
    else if '0' <= c <= '9' then Some(c as int + 4)
    else if c == '+' then Some(62)
    else if c == '/' then Some(63)
    else None
  }

  lemma PlaceOfChar(k: nat)
    requires k < 64
    ensures Place(CharOf(k)) == Some(k)
  {
  }

  lemma Pieces(k: nat)
    requires k < 13
    ensures UPPER_1[k] == (65 + k) as char && UPPER_2[k] == (78 + k) as char
    ensures LOWER_1[k] == (97 + k) as char && LOWER_2[k] == (110 + k) as char
    ensures k < 12 ==> OTHERS[k] == if k < 10 then (48 + k) as char else if k == 10 then '+' else '/'
  {
  }

  lemma AlphabetAt(k: nat)
    requires k < 64
    ensures |ALPHABET| == 64
    ensures ALPHABET[k] == if k < 13 then UPPER_1[k] else if k < 26 then UPPER_2[k - 13]
                           else if k < 39 then LOWER_1[k - 26] else if k < 52 then LOWER_2[k - 39] else OTHERS[k - 52]
  {
  }

  /** The table lookup of the encoder is CharOf, and the position strchr finds in the table is Place. */
  lemma AlphabetIs(k: nat)
    requires k < 64
    ensures |ALPHABET| == 64 && ALPHABET[k] == CharOf(k)
  {
    hide ALPHABET, UPPER_1, UPPER_2, LOWER_1, LOWER_2, OTHERS;
    AlphabetAt(k);
    Pieces(k % 13);
  }

  function Char(d: Sextet): char {
    CharOf(d as int)
  }

  function Digit(c: char): Option<Sextet> {
    if Place(c).Some? then Some(Place(c).value as bv8) else None
  }

  lemma DigitOfChar(d: Sextet)
    ensures Digit(Char(d)) == Some(d)
  {
    PlaceOfChar(d as int);
  }

  lemma SmallRoundTrip(k: nat)
    requires k < 64
    ensures (k as bv8) as int == k
  {
  }

  lemma CharOfDigit(c: char)
    requires Digit(c).Some?
    ensures Char(Digit(c).value) == c
  {
    SmallRoundTrip(Place(c).value);
  }

  // ----- groups of 24 bits -----

  /** A 24-bit group from three bytes, as four 6-bit values from left to right. */
  function Split(a: Byte, b: Byte, c: Byte): (Sextet, Sextet, Sextet, Sextet) {
    var g: bv24 := (a as bv24 << 16) | (b as bv24 << 8) | c as bv24;
    (((g >> 18) & 63) as bv8, ((g >> 12) & 63) as bv8, ((g >> 6) & 63) as bv8, (g & 63) as bv8)
  }

  /** The three bytes of the group with these four 6-bit values. */
  function Join(p: Sextet, q: Sextet, r: Sextet, s: Sextet): (Byte, Byte, Byte) {
    var g: bv24 := (p as bv24 << 18) | (q as bv24 << 12) | (r as bv24 << 6) | s as bv24;
    (((g >> 16) & 255) as bv8, ((g >> 8) & 255) as bv8, (g & 255) as bv8)
  }

  lemma JoinSplits(a: Byte, b: Byte, c: Byte)
    ensures var (p, q, r, s) := Split(a, b, c); Join(p, q, r, s) == (a, b, c)
  {
  }

  lemma SplitJoins(p: Sextet, q: Sextet, r: Sextet, s: Sextet)
    ensures var (a, b, c) := Join(p, q, r, s); Split(a, b, c) == (p, q, r, s)
  {
  }

  // ----- the reference encoding -----

  /** Section 4 of RFC 4648: groups of three bytes, then one or two bytes padded with zero bits and '='. */
  function Encode(x: seq<Byte>): (t: string)
    ensures |t| % 4 == 0
  {
    if |x| == 0 then []
    else if |x| == 1 then
      var (p, q, _, _) := Split(x[0], 0, 0);
      [Char(p), Char(q), PAD, PAD]
    else if |x| == 2 then
      var (p, q, r, _) := Split(x[0], x[1], 0);
      [Char(p), Char(q), Char(r), PAD]
    else
      EncodeGroup(x[0], x[1], x[2]) + Encode(x[3..])
  }

  function EncodeGroup(a: Byte, b: Byte, c: Byte): (t: string)
    ensures |t| == 4
  {
    var (p, q, r, s) := Split(a, b, c);
    [Char(p), Char(q), Char(r), Char(s)]
  }

  /** Reading the same structure back: the bytes, and whether the pad bits are zero. */
  function Parse(t: string): Option<(seq<Byte>, bool)> {
    if |t| == 0 then Some(([], true))
    else if |t| < 4 || Digit(t[0]).None? || Digit(t[1]).None? then None
    else if Digit(t[2]).Some? && Digit(t[3]).Some? then
      var rest := Parse(t[4..]);
      if rest.None? then None
      else Some((ParseGroup(t[0], t[1], t[2], t[3]) + rest.value.0, rest.value.1))
    else if |t| == 4 && t[3] == PAD && Digit(t[2]).Some? then
      Some((ParseGroup(t[0], t[1], t[2], 'A')[..2], Digit(t[2]).value & 0x03 == 0))
    else if |t| == 4 && t[3] == PAD && t[2] == PAD then
      Some((ParseGroup(t[0], t[1], 'A', 'A')[..1], Digit(t[1]).value & 0x0f == 0))
    else None
  }

  function ParseGroup(c0: char, c1: char, c2: char, c3: char): (g: seq<Byte>)
    requires Digit(c0).Some? && Digit(c1).Some? && Digit(c2).Some? && Digit(c3).Some?
    ensures |g| == 3
  {
    var (a, b, c) := Join(Digit(c0).value, Digit(c1).value, Digit(c2).value, Digit(c3).value);
    [a, b, c]
  }

  lemma PadBits1(a: Byte, b: Byte)
    ensures var (p, q, r, s) := Split(a, b, 0); r & 0x03 == 0 && s == 0
  {
  }

  lemma PadBits2(a: Byte)
    ensures var (p, q, r, s) := Split(a, 0, 0); q & 0x0f == 0 && r == 0 && s == 0
  {
  }

  lemma ZeroBits1(p: Sextet, q: Sextet, r: Sextet)
    requires r & 0x03 == 0
    ensures Join(p, q, r, 0).2 == 0
  {
  }

  lemma ZeroBits2(p: Sextet, q: Sextet)
    requires q & 0x0f == 0
    ensures Join(p, q, 0, 0).1 == 0 && Join(p, q, 0, 0).2 == 0
  {
  }

  lemma DigitOfA()
    ensures Digit('A') == Some(0) && Digit(PAD) == None
  {
  }

  lemma ParseOfOne(a: Byte)
    ensures Parse(Encode([a])) == Some(([a], true))
  {
    hide Char, Digit, Split, Join;
    DigitOfA();
    JoinSplits(a, 0, 0);
    var (p, q, r, s) := Split(a, 0, 0);
    DigitOfChar(p);
    DigitOfChar(q);
    PadBits2(a);
    var t := [Char(p), Char(q), PAD, PAD];
    assert Encode([a]) == t;
    assert ParseGroup(t[0], t[1], 'A', 'A') == [a, 0, 0] && [a, 0, 0][..1] == [a];
  }

  lemma ParseOfTwo(a: Byte, b: Byte)
    ensures Parse(Encode([a, b])) == Some(([a, b], true))
  {
    hide Char, Digit, Split, Join;
    DigitOfA();
    JoinSplits(a, b, 0);
    var (p, q, r, s) := Split(a, b, 0);
    DigitOfChar(p);
    DigitOfChar(q);
    DigitOfChar(r);
    PadBits1(a, b);
    var t := [Char(p), Char(q), Char(r), PAD];
    assert Encode([a, b]) == t;
    assert ParseGroup(t[0], t[1], t[2], 'A') == [a, b, 0] && [a, b, 0][..2] == [a, b];
  }

  lemma ParseOfGroup(a: Byte, b: Byte, c: Byte)
    ensures var t := EncodeGroup(a, b, c);
            && (forall k :: 0 <= k < 4 ==> Digit(t[k]).Some?)
            && ParseGroup(t[0], t[1], t[2], t[3]) == [a, b, c]
  {
    hide Char, Digit, Split, Join;
    JoinSplits(a, b, c);
    var (p, q, r, s) := Split(a, b, c);
    DigitOfChar(p);
    DigitOfChar(q);
    DigitOfChar(r);
    DigitOfChar(s);
  }

  /** Parsing an encoding gives the bytes back, with clean pad bits. */
  lemma {:induction false} ParseOfEncode(x: seq<Byte>)
    ensures Parse(Encode(x)) == Some((x, true))
  {
    hide Digit, EncodeGroup, ParseGroup;
    if |x| == 1 {
      ParseOfOne(x[0]);
      assert x == [x[0]];
    } else if |x| == 2 {
      ParseOfTwo(x[0], x[1]);
      assert x == [x[0], x[1]];
    } else if |x| >= 3 {
      ParseOfGroup(x[0], x[1], x[2]);
      ParseOfEncode(x[3..]);
      var t := EncodeGroup(x[0], x[1], x[2]);
      assert Encode(x)[4..] == Encode(x[3..]) && Encode(x)[..4] == t;
      assert x == [x[0], x[1], x[2]] + x[3..];
    }
  }

  /** A text that parses with clean pad bits is the encoding of what it parses to. */
  lemma {:induction false} EncodeOfParse(t: string)
    requires Parse(t).Some? && Parse(t).value.1
    ensures Encode(Parse(t).value.0) == t
    decreases |t|
  {
    hide Char, Digit, Split, Join;
    DigitOfA();
    if |t| >= 4 {
      var p, q := Digit(t[0]).value, Digit(t[1]).value;
      CharOfDigit(t[0]); CharOfDigit(t[1]);
      if Digit(t[2]).Some? && Digit(t[3]).Some? {
        var r, s := Digit(t[2]).value, Digit(t[3]).value;
        CharOfDigit(t[2]); CharOfDigit(t[3]);
        SplitJoins(p, q, r, s);
        EncodeOfParse(t[4..]);
        var g, rest := ParseGroup(t[0], t[1], t[2], t[3]), Parse(t[4..]).value.0;
        assert (g + rest)[3..] == rest;
      } else if Digit(t[2]).Some? {
        var r := Digit(t[2]).value;
        CharOfDigit(t[2]);
        SplitJoins(p, q, r, 0);
        ZeroBits1(p, q, r);
      } else {
        SplitJoins(p, q, 0, 0);
        ZeroBits2(p, q);
      }
    }
  }

  /** Canonical texts, and only they, are encodings; the encoded bytes are determined. */
  lemma Canonical(t: string, x: seq<Byte>)
    ensures t == Encode(x) <==> Parse(t) == Some((x, true))
  {
    ParseOfEncode(x);
    if Parse(t) == Some((x, true)) {
      EncodeOfParse(t);
    }
  }

  // ----- base64_enclen, base64_declen -----

  method EncLen(origLen: nat) returns (len: nat)
    ensures forall x: seq<Byte> :: |x| == origLen ==> len == |Encode(x)|
  {
    len := origLen / 3;
    if origLen % 3 != 0 {
      len := len + 1;
    }
    len := len * 4;
    forall x: seq<Byte> | |x| == origLen
      ensures len == |Encode(x)|
    {
      EncodeLength(x);
    }
  }

  function EncodedLength(n: nat): nat {
    (n + 2) / 3 * 4
  }

  lemma {:induction false} EncodeLength(x: seq<Byte>)
    ensures |Encode(x)| == EncodedLength(|x|)
  {
    if |x| > 2 {
      EncodeLength(x[3..]);
    }
  }

  /** Room the decoder needs for `n` bytes: it also stores the partial byte behind them. */
  function Room(n: nat): nat {
    if n % 3 == 0 then n else n + 1
  }

  method DecLen(origLen: nat) returns (len: nat)
    ensures forall n: nat :: EncodedLength(n) == origLen ==> Room(n) <= len
    ensures origLen % 4 == 0 ==> len == origLen / 4 * 3
  {
    len := origLen * 3 / 4;
  }

  // ----- base64_encode -----

  lemma Sextets(a: Byte, b: Byte, c: Byte)
    ensures a >> 2 < 64 && ((a & 0x03) << 4) + (b >> 4) < 64 && ((b & 0x0f) << 2) + (c >> 6) < 64 && c & 0x3f < 64
    ensures Split(a, b, c) == (a >> 2, ((a & 0x03) << 4) + (b >> 4), ((b & 0x0f) << 2) + (c >> 6), c & 0x3f)
  {
  }

  /** Base64[d]. */
  method Lookup(d: Sextet) returns (c: char)
    ensures c == Char(d)
  {
    AlphabetIs(d as int);
    c := ALPHABET[d as int];
  }

  lemma {:induction false} EncodeStep(x: seq<Byte>, i: nat)
    requires i % 3 == 0 && i <= |x|
    ensures Encode(x[..i]) + Encode(x[i..]) == Encode(x)
    decreases i
  {
    hide EncodeGroup;
    if i > 0 {
      EncodeStep(x[3..], i - 3);
      assert x[..i][3..] == x[3..][..i - 3] && x[i..] == x[3..][i - 3..];
    } else {
      assert x[0..] == x;
    }
  }

  lemma EncodeTail(x: seq<Byte>, i: nat)
    requires i % 3 == 0 && i + 3 <= |x|
    ensures Encode(x[..i + 3]) == Encode(x[..i]) + EncodeGroup(x[i], x[i + 1], x[i + 2])
  {
    hide EncodeGroup;
    EncodeStep(x[..i + 3], i);
    var group := x[..i + 3][i..];
    assert x[..i + 3][..i] == x[..i] && group == [x[i], x[i + 1], x[i + 2]];
    assert Encode(group) == EncodeGroup(x[i], x[i + 1], x[i + 2]) + Encode(group[3..]);
  }

  /** base64_encode: succeeds exactly when the encoding and its terminator fit, and stays inside `targsize`. */
  method EncodeInto(src: seq<Byte>, target: array<char>, targsize: nat) returns (r: int)
    requires targsize <= target.Length
    modifies target
    ensures r == if |Encode(src)| < targsize then |Encode(src)| else -1
    ensures r >= 0 ==> target[..r] == Encode(src) && target[r] == '\0'
    ensures target[targsize..] == old(target[targsize..])
  {
    hide Encode, EncodeGroup, Split, Char;
    EncodeLength(src);
    EmptyCode();
    var i, datalength := 0, 0;
    while 2 < |src| - i
      invariant 0 <= i <= |src| && i % 3 == 0 && datalength == i / 3 * 4 <= targsize
      invariant target[..datalength] == Encode(src[..i])
      invariant target[targsize..] == old(target[targsize..])
    {
      if datalength + 4 > targsize {
        return -1;
      }
      var a, b, c := src[i], src[i + 1], src[i + 2];
      Put(target, datalength, a, b, c);
      EncodeTail(src, i);
      datalength := datalength + 4;
      i := i + 3;
    }
    EncodeStep(src, i);
    if i != |src| {
      if datalength + 4 > targsize {
        return -1;
      }
      PutPadded(target, datalength, src[i..]);
      datalength := datalength + 4;
    }
    assert target[..datalength] == Encode(src);
    if datalength >= targsize {
      return -1;
    }
    target[datalength] := '\0';
    r := datalength;
  }

  lemma EmptyCode()
    ensures Encode([]) == []
  {
  }

  /** The four table lookups of the loop. */
  method Put(target: array<char>, n: nat, a: Byte, b: Byte, c: Byte)
    requires n + 4 <= target.Length
    modifies target
    ensures target[..] == old(target[..n]) + EncodeGroup(a, b, c) + old(target[n + 4..])
  {
    Sextets(a, b, c);
    target[n] := Lookup(a >> 2);
    target[n + 1] := Lookup(((a & 0x03) << 4) + (b >> 4));
    target[n + 2] := Lookup(((b & 0x0f) << 2) + (c >> 6));
    target[n + 3] := Lookup(c & 0x3f);
  }

  /** The last one or two bytes. */
  method PutPadded(target: array<char>, n: nat, last: seq<Byte>)
    requires n + 4 <= target.Length && 1 <= |last| <= 2
    modifies target
    ensures target[..] == old(target[..n]) + Encode(last) + old(target[n + 4..])
  {
    var a, b, c: Byte := last[0], if |last| == 2 then last[1] else 0, 0;
    Sextets(a, b, c);
    target[n] := Lookup(a >> 2);
    target[n + 1] := Lookup(((a & 0x03) << 4) + (b >> 4));
    if |last| == 1 {
      target[n + 2] := PAD;
    } else {
      target[n + 2] := Lookup(((b & 0x0f) << 2) + (c >> 6));
    }
    target[n + 3] := PAD;
  }

  // ----- base64_decode -----

  predicate IsSpace(c: char) {
    c == ' ' || '\t' <= c <= '\r'
  }

  /** The text without its whitespace. */
  function Strip(s: string): string {
    if s == [] then [] else (if IsSpace(s[0]) then [] else [s[0]]) + Strip(s[1..])
  }

  /** What base64_decode accepts: any whitespace, and with a target also clean pad bits and room. */
  predicate Accepts(s: string, stored: bool, targsize: nat) {
    var p := Parse(Strip(s));
    p.Some? && (stored ==> p.value.1 && Room(|p.value.0|) <= targsize)
  }

  predicate AllDigits(t: string) {
    forall k :: 0 <= k < |t| ==> Digit(t[k]).Some?
  }

  /** The bytes in the target after the digits `t`; the last one is unfinished unless |t| is a multiple of 4. */
  function Raw(t: string): (out: seq<Byte>)
    requires AllDigits(t)
    ensures |out| == |t| / 4 * 3 + |t| % 4
  {
    DigitOfA();
    if |t| == 0 then []
    else if |t| == 1 then ParseGroup(t[0], 'A', 'A', 'A')[..1]
    else if |t| == 2 then ParseGroup(t[0], t[1], 'A', 'A')[..2]
    else if |t| == 3 then ParseGroup(t[0], t[1], t[2], 'A')
    else ParseGroup(t[0], t[1], t[2], t[3]) + Raw(t[4..])
  }

  lemma JoinBytes(p: Sextet, q: Sextet, r: Sextet, s: Sextet)
    ensures Join(p, q, r, s) == ((p << 2) | (q >> 4), ((q & 0x0f) << 4) | (r >> 2), ((r & 0x03) << 6) | s)
  {
  }

  function Or(a: Byte, b: Byte): Byte {
    a | b
  }

  /** target[n] |= bits, for the last byte stored so far. */
  function OrLast(out: seq<Byte>, bits: Byte): (out': seq<Byte>)
    requires |out| > 0
    ensures |out'| == |out|
  {
    out[..|out| - 1] + [Or(out[|out| - 1], bits)]
  }

  /** The assignments of the decoder's switch, as one step on the bytes stored so far. */
  function Stored(out: seq<Byte>, state: nat, d: Sextet): (out': seq<Byte>)
    requires state < 4 && (state == 0 || |out| > 0)
    ensures |out'| == if state == 3 then |out| else |out| + 1
  {
    if state == 0 then out + [d << 2]
    else if state == 1 then OrLast(out, d >> 4) + [(d & 0x0f) << 4]
    else if state == 2 then OrLast(out, d >> 2) + [(d & 0x03) << 6]
    else OrLast(out, d)
  }

  lemma OrLastBehind(g: seq<Byte>, out: seq<Byte>, bits: Byte)
    requires |out| > 0
    ensures OrLast(g + out, bits) == g + OrLast(out, bits)
  {
    hide Or;
    var n := |out| - 1;
    assert (g + out)[..|g| + n] == g + out[..n] && (g + out)[|g| + n] == out[n];
  }

  lemma StoredBehind(g: seq<Byte>, out: seq<Byte>, state: nat, d: Sextet)
    requires state < 4 && (state == 0 || |out| > 0)
    ensures Stored(g + out, state, d) == g + Stored(out, state, d)
  {
    hide OrLast;
    if state > 0 {
      OrLastBehind(g, out, if state == 1 then d >> 4 else if state == 2 then d >> 2 else d);
    }
  }

  /** A zero sextet adds nothing. */
  lemma PartialGroups(p: Sextet, q: Sextet, r: Sextet)
    ensures Join(p, 0, 0, 0).0 == p << 2
    ensures Join(p, q, 0, 0).0 == (p << 2) | (q >> 4) && Join(p, q, 0, 0).1 == (q & 0x0f) << 4
    ensures Join(p, q, r, 0).1 == ((q & 0x0f) << 4) | (r >> 2) && Join(p, q, r, 0).2 == (r & 0x03) << 6
  {
  }

  lemma RawStep0(c: char)
    requires Digit(c).Some?
    ensures AllDigits([c]) && Raw([c]) == Stored([], 0, Digit(c).value)
  {
    hide Digit, Join;
    DigitOfA();
    PartialGroups(Digit(c).value, 0, 0);
  }

  lemma RawStep1(c0: char, c: char)
    requires AllDigits([c0]) && Digit(c).Some?
    ensures AllDigits([c0, c]) && Raw([c0, c]) == Stored(Raw([c0]), 1, Digit(c).value)
  {
    hide Digit, Join;
    DigitOfA();
    assert Digit([c0][0]).Some?;
    PartialGroups(Digit(c0).value, Digit(c).value, 0);
  }

  lemma RawStep2(c0: char, c1: char, c: char)
    requires AllDigits([c0, c1]) && Digit(c).Some?
    ensures AllDigits([c0, c1, c]) && Raw([c0, c1, c]) == Stored(Raw([c0, c1]), 2, Digit(c).value)
  {
    hide Digit, Join;
    DigitOfA();
    assert Digit([c0, c1][0]).Some? && Digit([c0, c1][1]).Some?;
    var p: Byte, q: Byte, r: Byte := Digit(c0).value, Digit(c1).value, Digit(c).value;
    PartialGroups(p, q, r);
    JoinBytes(p, q, r, 0);
    var x: Byte, y: Byte, y': Byte, z: Byte :=
      (p << 2) | (q >> 4), (q & 0x0f) << 4, ((q & 0x0f) << 4) | (r >> 2), (r & 0x03) << 6;
    assert Raw([c0, c1]) == [x, y];
    assert Raw([c0, c1, c]) == [x, y', z];
  }

  lemma RawStep3(c0: char, c1: char, c2: char, c: char)
    requires AllDigits([c0, c1, c2]) && Digit(c).Some?
    ensures AllDigits([c0, c1, c2, c]) && Raw([c0, c1, c2, c]) == Stored(Raw([c0, c1, c2]), 3, Digit(c).value)
  {
    hide Digit, Join;
    DigitOfA();
    assert Digit([c0, c1, c2][0]).Some? && Digit([c0, c1, c2][1]).Some? && Digit([c0, c1, c2][2]).Some?;
    var p: Byte, q: Byte, r: Byte, d: Byte := Digit(c0).value, Digit(c1).value, Digit(c2).value, Digit(c).value;
    JoinBytes(p, q, r, 0);
    JoinBytes(p, q, r, d);
    PartialGroups(p, q, r);
    var x: Byte, y: Byte, z: Byte, z': Byte :=
      (p << 2) | (q >> 4), ((q & 0x0f) << 4) | (r >> 2), (r & 0x03) << 6, ((r & 0x03) << 6) | d;
    assert Raw([c0, c1, c2]) == [x, y, z];
    assert Raw([c0, c1, c2, c]) == [x, y, z'];
  }

  lemma RawGroup(t: string)
    requires AllDigits(t) && |t| >= 4
    ensures Digit(t[0]).Some? && Digit(t[1]).Some? && Digit(t[2]).Some? && Digit(t[3]).Some? && AllDigits(t[4..])
    ensures Raw(t) == ParseGroup(t[0], t[1], t[2], t[3]) + Raw(t[4..])
    ensures |t[4..]| % 4 == |t| % 4
  {
    hide Digit, ParseGroup;
  }

  lemma DigitsAppend(t: string, c: char)
    requires AllDigits(t) && Digit(c).Some?
    ensures AllDigits(t + [c])
  {
    hide Digit;
  }

  lemma RawStepShort(t: string, c: char)
    requires AllDigits(t) && AllDigits(t + [c]) && Digit(c).Some? && |t| < 4
    ensures Raw(t + [c]) == Stored(Raw(t), |t|, Digit(c).value)
  {
    hide Digit, ParseGroup, Stored, Raw, AllDigits;
    if |t| == 0 {
      RawStep0(c);
      RawNothing();
      assert t == [] && t + [c] == [c];
    } else if |t| == 1 {
      assert t == [t[0]] && t + [c] == [t[0], c];
      RawStep1(t[0], c);
    } else if |t| == 2 {
      assert t == [t[0], t[1]] && t + [c] == [t[0], t[1], c];
      RawStep2(t[0], t[1], c);
    } else {
      assert t == [t[0], t[1], t[2]] && t + [c] == [t[0], t[1], t[2], c];
      RawStep3(t[0], t[1], t[2], c);
    }
  }

  lemma RawStepGroup(t: string, c: char)
    requires AllDigits(t) && AllDigits(t + [c]) && Digit(c).Some? && |t| >= 4 && AllDigits(t[4..])
    requires AllDigits(t[4..] + [c])
    requires Raw(t[4..] + [c]) == Stored(Raw(t[4..]), |t[4..]| % 4, Digit(c).value)
    ensures Raw(t + [c]) == Stored(Raw(t), |t| % 4, Digit(c).value)
  {
    RawGroup(t);
    RawGroup(t + [c]);
    hide Digit, ParseGroup, Stored, Raw, AllDigits;
    assert (t + [c])[4..] == t[4..] + [c];
    StoredBehind(ParseGroup(t[0], t[1], t[2], t[3]), Raw(t[4..]), |t| % 4, Digit(c).value);
  }

  /** One more digit has exactly the effect of the decoder's switch on the bytes stored so far. */
  lemma {:induction false} RawStep(t: string, c: char)
    requires AllDigits(t) && Digit(c).Some?
    ensures AllDigits(t + [c])
    ensures Raw(t + [c]) == Stored(Raw(t), |t| % 4, Digit(c).value)
    decreases |t|
  {
    DigitsAppend(t, c);
    hide Digit, ParseGroup, Stored, Raw;
    if |t| < 4 {
      RawStepShort(t, c);
    } else {
      RawStep(t[4..], c);
      RawStepGroup(t, c);
    }
  }

  lemma RawNothing()
    ensures AllDigits([]) && Raw([]) == []
  {
  }

  lemma CleanBits(q: Sextet, r: Sextet)
    ensures (q & 0x0f) << 4 == 0 <==> q & 0x0f == 0
    ensures (r & 0x03) << 6 == 0 <==> r & 0x03 == 0
  {
  }

  /** What follows the leading digits decides acceptance; the last stored byte shows whether the pad bits are zero. */
  function ParseAfter(out: seq<Byte>, n: nat, rest: string): Option<(seq<Byte>, bool)> {
    if rest == [] && n % 4 == 0 then Some((out, true))
    else if |out| > 0 && ((rest == [PAD] && n % 4 == 3) || (rest == [PAD, PAD] && n % 4 == 2)) then
      Some((out[..|out| - 1], out[|out| - 1] == 0))
    else None
  }

  lemma ParseTwo(c0: char, c1: char, rest: string)
    requires Digit(c0).Some? && Digit(c1).Some? && AllDigits([c0, c1]) && (rest == [] || Digit(rest[0]).None?)
    ensures Parse([c0, c1] + rest) == ParseAfter(Raw([c0, c1]), 2, rest)
  {
    hide Digit, Join;
    DigitOfA();
    PartialGroups(Digit(c0).value, Digit(c1).value, 0);
    CleanBits(Digit(c1).value, 0);
    var u, g := [c0, c1] + rest, ParseGroup(c0, c1, 'A', 'A');
    assert Raw([c0, c1]) == g[..2];
    if |rest| >= 1 {
      assert u[2] == rest[0];
    }
    if |rest| == 2 {
      assert u[3] == rest[1] && rest == [rest[0], rest[1]];
      assert g[..2][..1] == g[..1];
    }
  }

  lemma ParseThree(c0: char, c1: char, c2: char, rest: string)
    requires Digit(c0).Some? && Digit(c1).Some? && Digit(c2).Some? && AllDigits([c0, c1, c2])
    requires rest == [] || Digit(rest[0]).None?
    ensures Parse([c0, c1, c2] + rest) == ParseAfter(Raw([c0, c1, c2]), 3, rest)
  {
    hide Digit, Join;
    DigitOfA();
    PartialGroups(Digit(c0).value, Digit(c1).value, Digit(c2).value);
    CleanBits(0, Digit(c2).value);
    var u := [c0, c1, c2] + rest;
    if |rest| >= 1 {
      assert u[3] == rest[0];
    }
    if |rest| == 1 {
      assert rest == [rest[0]];
    }
  }

  lemma ParseOne(t: string, rest: string)
    requires |t| < 2 && AllDigits(t) && (rest == [] || Digit(rest[0]).None?)
    ensures Parse(t + rest) == ParseAfter(Raw(t), |t|, rest)
  {
    hide Digit, ParseGroup;
    if |rest| >= 1 {
      assert (t + rest)[|t|] == rest[0];
    }
  }

  /** The decoder's view, digits first and then the end of the text, agrees with the reference parser. */
  lemma {:induction false} ParseDigits(t: string, rest: string)
    requires AllDigits(t) && (rest == [] || Digit(rest[0]).None?)
    ensures Parse(t + rest) == ParseAfter(Raw(t), |t|, rest)
    decreases |t|
  {
    hide Digit, ParseGroup, ParseAfter;
    if |t| < 2 {
      ParseOne(t, rest);
    } else if |t| == 2 {
      ParseTwo(t[0], t[1], rest);
      assert t == [t[0], t[1]];
    } else if |t| == 3 {
      ParseThree(t[0], t[1], t[2], rest);
      assert t == [t[0], t[1], t[2]];
    } else {
      ParseDigits(t[4..], rest);
      assert (t + rest)[4..] == t[4..] + rest;
      ParseBehind(ParseGroup(t[0], t[1], t[2], t[3]), Raw(t[4..]), |t| - 4, rest);
    }
  }

  lemma ParseBehind(g: seq<Byte>, out: seq<Byte>, n: nat, rest: string)
    requires |g| == 3 && |out| == n / 4 * 3 + n % 4
    ensures var p := ParseAfter(out, n, rest);
            ParseAfter(g + out, n + 4, rest) == if p.None? then None else Some((g + p.value.0, p.value.1))
  {
    assert |out| > 0 ==> (g + out)[..|g + out| - 1] == g + out[..|out| - 1];
  }

  function DigitRun(u: string): (n: nat)
    ensures n <= |u| && AllDigits(u[..n]) && (n == |u| || Digit(u[n]).None?)
  {
    if u == [] || Digit(u[0]).None? then 0
    else
      var m := DigitRun(u[1..]);
      assert forall k :: 1 <= k < 1 + m ==> u[k] == u[1..][..m][k - 1];
      1 + m
  }

  /** Room for the bytes of any digits that have been read is a part of what acceptance needs. */
  lemma NeedsRoom(u: string, n: nat, targsize: nat)
    requires n <= |u| && AllDigits(u[..n]) && |Raw(u[..n])| > targsize
    requires Parse(u).Some?
    ensures Room(|Parse(u).value.0|) > targsize
  {
    hide Digit, Parse, Raw;
    var m := DigitRun(u);
    RunIsLongest(u, n);
    assert u == u[..m] + u[m..];
    RoomAfter(u[..m], u[m..]);
    Monotone(n, m);
  }

  lemma {:induction false} RunIsLongest(u: string, n: nat)
    requires n <= |u| && AllDigits(u[..n])
    ensures n <= DigitRun(u)
  {
    hide Digit;
    if n > 0 {
      assert u[..n][0] == u[0];
      var v := u[1..][..n - 1];
      forall k | 0 <= k < |v|
        ensures Digit(v[k]).Some?
      {
        assert v[k] == u[..n][k + 1];
      }
      RunIsLongest(u[1..], n - 1);
    }
  }

  lemma Monotone(n: nat, m: nat)
    requires n <= m
    ensures n / 4 * 3 + n % 4 <= m / 4 * 3 + m % 4
  {
    assert n == 4 * (n / 4) + n % 4 && m == 4 * (m / 4) + m % 4;
  }

  lemma RoomAfter(t: string, rest: string)
    requires AllDigits(t) && (rest == [] || Digit(rest[0]).None?)
    ensures Parse(t + rest) == ParseAfter(Raw(t), |t|, rest)
    ensures Parse(t + rest).Some? ==> Room(|Parse(t + rest).value.0|) == |Raw(t)|
  {
    hide Digit, Parse, Raw, Room;
    ParseDigits(t, rest);
    RoomOfDigits(|t|);
  }

  lemma RoomOfDigits(n: nat)
    ensures n % 4 == 0 ==> Room(n / 4 * 3 + n % 4) == n / 4 * 3 + n % 4
    ensures n % 4 >= 2 ==> Room(n / 4 * 3 + n % 4 - 1) == n / 4 * 3 + n % 4
  {
    var q, r := n / 4, n % 4;
    assert r == 0 ==> 3 * q % 3 == 0;
    assert (3 * q + 1) % 3 == 1 && (3 * q + 2) % 3 == 2;
  }

  /** strchr(Base64, c) - Base64, for a character other than the terminator. */
  method Strchr(c: char) returns (pos: Option<Sextet>)
    ensures pos == Digit(c)
  {
    var k := 0;
    while k < 64
      invariant 0 <= k <= 64
      invariant forall j :: 0 <= j < k ==> CharOf(j) != c
    {
      AlphabetIs(k);
      if ALPHABET[k] == c {
        PlaceOfChar(k);
        SmallRoundTrip(k);
        return Some(k as bv8);
      }
      k := k + 1;
    }
    pos := None;
  }

  /** Where the decoder stands after the digits `t`. */
  ghost predicate Standing(t: string, state: nat, tarindex: nat) {
    && AllDigits(t) && state == |t| % 4
    && tarindex == if state == 0 then |Raw(t)| else |Raw(t)| - 1
  }

  /** target[n-1] |= bits. */
  method OrInto(target: array<Byte>, n: nat, bits: Byte)
    requires 0 < n <= target.Length
    modifies target
    ensures target[..n] == OrLast(old(target[..n]), bits)
    ensures forall k :: n <= k < target.Length ==> target[k] == old(target[k])
  {
    hide Or;
    target[n - 1] := Or(target[n - 1], bits);
  }

  /** target[n] = b. */
  method Set(target: array<Byte>, n: nat, b: Byte)
    requires n < target.Length
    modifies target
    ensures target[..n + 1] == old(target[..n]) + [b]
    ensures forall k :: n < k < target.Length ==> target[k] == old(target[k])
  {
    target[n] := b;
  }

  /** The stores of base64_decode for one digit behind the `n` bytes stored so far, each with its own room check. */
  method StoreDigit(target: array<Byte>, targsize: nat, state: nat, tarindex: nat, pos: Sextet, ghost n: nat)
    returns (ok: bool)
    requires state < 4 && n == (if state == 0 then tarindex else tarindex + 1)
    requires n <= targsize <= target.Length
    modifies target
    ensures var n' := if state == 3 then n else n + 1;
            && (ok <==> n' <= targsize)
            && (ok ==> target[..n'] == Stored(old(target[..n]), state, pos))
    ensures target[targsize..] == old(target[targsize..])
  {
    hide OrLast;
    ghost var out := target[..n];
    if state == 0 {
      if tarindex >= targsize {
        return false;
      }
      Set(target, tarindex, pos << 2);
      assert target[..n + 1] == Stored(out, state, pos);
    } else if state == 1 {
      if tarindex + 1 >= targsize {
        return false;
      }
      OrInto(target, tarindex + 1, pos >> 4);
      assert target[..n] == OrLast(out, pos >> 4);
      Set(target, tarindex + 1, (pos & 0x0f) << 4);
      assert target[..n + 1] == Stored(out, state, pos);
    } else if state == 2 {
      if tarindex + 1 >= targsize {
        return false;
      }
      OrInto(target, tarindex + 1, pos >> 2);
      assert target[..n] == OrLast(out, pos >> 2);
      Set(target, tarindex + 1, (pos & 0x03) << 6);
      assert target[..n + 1] == Stored(out, state, pos);
    } else {
      if tarindex >= targsize {
        return false;
      }
      OrInto(target, tarindex + 1, pos);
    }
    ok := true;
  }

  /** The switch of base64_decode for one digit. */
  method Switch(target: array?<Byte>, targsize: nat, state: nat, tarindex: nat, pos: Sextet,
                ghost t: string, ghost c: char)
    returns (ok: bool, state': nat, tarindex': nat)
    requires target != null ==> targsize <= target.Length
    requires Standing(t, state, tarindex) && Digit(c) == Some(pos)
    requires target != null ==> |Raw(t)| <= targsize && target[..|Raw(t)|] == Raw(t)
    modifies target
    ensures AllDigits(t + [c])
    ensures ok <==> target == null || |Raw(t + [c])| <= targsize
    ensures ok ==> Standing(t + [c], state', tarindex')
    ensures ok && target != null ==> target[..|Raw(t + [c])|] == Raw(t + [c])
    ensures target != null ==> target[targsize..] == old(target[targsize..])
  {
    RawStep(t, c);
    hide Digit, Raw, Stored;
    state' := if state == 3 then 0 else state + 1;
    tarindex' := if state == 0 then tarindex else tarindex + 1;
    ok := true;
    if target != null {
      ok := StoreDigit(target, targsize, state, tarindex, pos, |Raw(t)|);
    }
  }

  /** The loops that pass over whitespace from position `i` on. */
  method SkipSpaces(src: CString, i: nat) returns (j: nat)
    requires i <= |src|
    ensures i <= j <= |src| && Strip(src[i..]) == Strip(src[j..])
    ensures j < |src| ==> !IsSpace(src[j]) && Strip(src[j..]) == [src[j]] + Strip(src[j + 1..])
    ensures j == |src| ==> Strip(src[j..]) == []
  {
    j := i;
    while j < |src| && IsSpace(src[j])
      invariant i <= j <= |src| && Strip(src[i..]) == Strip(src[j..])
    {
      assert src[j..][1..] == src[j + 1..];
      j := j + 1;
    }
    if j < |src| {
      assert src[j..][1..] == src[j + 1..];
    }
  }

  /** The reading loop of base64_decode: stops behind the first '=', at the end of the text, or with an error. */
  method DecodeDigits(src: CString, target: array?<Byte>, targsize: nat)
    returns (ok: bool, i: nat, state: nat, tarindex: nat, padded: bool, ghost t: string)
    requires target != null ==> targsize <= target.Length
    modifies target
    ensures target != null ==> target[targsize..] == old(target[targsize..])
    ensures !ok ==> !Accepts(src, target != null, targsize)
    ensures ok ==> i <= |src| && Standing(t, state, tarindex)
    ensures ok ==> Strip(src) == if padded then t + ([PAD] + Strip(src[i..])) else t
    ensures ok && target != null ==> |Raw(t)| <= targsize && target[..|Raw(t)|] == Raw(t)
  {
    hide Digit, Parse, Raw, Room;
    ok, i, state, tarindex, padded, t := true, 0, 0, 0, false, [];
    assert src[0..] == src;
    while i < |src|
      invariant i <= |src| && Standing(t, state, tarindex)
      invariant Strip(src) == t + Strip(src[i..])
      invariant target != null ==> |Raw(t)| <= targsize && target[..|Raw(t)|] == Raw(t)
      invariant target != null ==> target[targsize..] == old(target[targsize..])
    {
      var ch := src[i];
      assert src[i..][1..] == src[i + 1..];
      i := i + 1;
      if IsSpace(ch) {
        continue;
      }
      assert Strip(src) == t + ([ch] + Strip(src[i..]));
      if ch == PAD {
        padded := true;
        return;
      }
      var pos := Strchr(ch);
      if pos.None? {
        NotCanonical(t, [ch] + Strip(src[i..]));
        ok := false;
        return;
      }
      ok, state, tarindex := Switch(target, targsize, state, tarindex, pos.value, t, ch);
      t := t + [ch];
      assert Strip(src) == t + Strip(src[i..]);
      if !ok {
        if Parse(Strip(src)).Some? {
          NoRoom(t, Strip(src[i..]), targsize);
        }
        return;
      }
    }
    assert src[i..] == [];
  }

  lemma NoRoom(t: string, rest: string, targsize: nat)
    requires AllDigits(t) && |Raw(t)| > targsize && Parse(t + rest).Some?
    ensures Room(|Parse(t + rest).value.0|) > targsize
  {
    hide Digit, Parse, Raw, Room;
    assert (t + rest)[..|t|] == t;
    NeedsRoom(t + rest, |t|, targsize);
  }

  lemma NotCanonical(t: string, rest: string)
    requires AllDigits(t) && rest != [] && Digit(rest[0]).None? && rest[0] != PAD
    ensures Parse(t + rest).None?
  {
    hide Digit, Parse, Raw;
    ParseDigits(t, rest);
  }

  /**
   The end of base64_decode behind an '=', for states 2 and 3: the padding must be complete and only spaces
   follow.
   */
  method PaddingEnds(src: CString, i: nat, state: nat) returns (ok: bool)
    requires i <= |src| && 2 <= state <= 3
    ensures ok <==> [PAD] + Strip(src[i..]) == if state == 2 then [PAD, PAD] else [PAD]
  {
    var j := SkipSpaces(src, i);
    if state == 2 {
      ghost var rest := [PAD] + Strip(src[i..]);
      assert j < |src| ==> rest[1] == src[j];
      assert [PAD, PAD][1] == PAD;
      if j == |src| || src[j] != PAD {
        return false;
      }
      j := SkipSpaces(src, j + 1);
    }
    ok := j == |src|;
  }

  /**
   base64_decode. With a target the result is the decoded length exactly when the text without
   its whitespace is canonical and the target has room; the target then starts with the bytes.
   */
  method DecodeInto(src: CString, target: array?<Byte>, targsize: nat) returns (r: int)
    requires target != null ==> targsize <= target.Length
    modifies target
    ensures r == if Accepts(src, target != null, targsize) then |Parse(Strip(src)).value.0| else -1
    ensures target != null && r >= 0 ==> target[..r] == Parse(Strip(src)).value.0
    ensures target != null ==> target[targsize..] == old(target[targsize..])
  {
    hide Digit, Parse, Raw, Strip, AllDigits;
    var ok, i, state, tarindex, padded, t := DecodeDigits(src, target, targsize);
    if !ok {
      return -1;
    }
    DigitOfA();
    ghost var rest := if padded then [PAD] + Strip(src[i..]) else [];
    assert Strip(src) == t + rest;
    RoomAfter(t, rest);
    if padded {
      if state < 2 {
        return -1;
      }
      var complete := PaddingEnds(src, i, state);
      if !complete {
        return -1;
      }
      assert target != null ==> target[tarindex] == Raw(t)[tarindex];
      if target != null && target[tarindex] != 0 {
        return -1;
      }
    } else if state != 0 {
      return -1;
    }
    r := tarindex;
  }

  /** Decoding succeeds with the bytes x exactly when the text without its whitespace is the encoding of x. */
  lemma AcceptsEncodings(s: string, targsize: nat, x: seq<Byte>)
    ensures Strip(s) == Encode(x) && Room(|x|) <= targsize
       <==> Accepts(s, true, targsize) && Parse(Strip(s)).value.0 == x
  {
    Canonical(Strip(s), x);
  }

  lemma EncodesNoSpaces(d: Sextet)
    ensures !IsSpace(Char(d)) && Char(d) != '\0'
  {
  }

  lemma {:induction false} StripKeeps(t: string)
    requires forall k :: 0 <= k < |t| ==> !IsSpace(t[k])
    ensures Strip(t) == t
  {
    if t != [] {
      StripKeeps(t[1..]);
    }
  }

  lemma {:induction false} EncodedChars(x: seq<Byte>)
    ensures forall k :: 0 <= k < |Encode(x)| ==> !IsSpace(Encode(x)[k]) && Encode(x)[k] != '\0'
  {
    hide Char, Split;
    var a, b, c := if |x| > 0 then x[0] else 0, if |x| > 1 then x[1] else 0, if |x| > 2 then x[2] else 0;
    var (p, q, r, s) := Split(a, b, c);
    EncodesNoSpaces(p);
    EncodesNoSpaces(q);
    EncodesNoSpaces(r);
    EncodesNoSpaces(s);
    if |x| > 2 {
      EncodedChars(x[3..]);
    }
  }

  /** The test vectors of section 10 of RFC 4648, for the texts "" to "foobar". */
  lemma Vectors()
    ensures Encode([]) == "" && Encode([0x66]) == "Zg==" && Encode([0x66, 0x6F]) == "Zm8="
    ensures Encode([0x66, 0x6F, 0x6F]) == "Zm9v" && Encode([0x66, 0x6F, 0x6F, 0x62]) == "Zm9vYg=="
    ensures Encode([0x66, 0x6F, 0x6F, 0x62, 0x61]) == "Zm9vYmE="
    ensures Encode([0x66, 0x6F, 0x6F, 0x62, 0x61, 0x72]) == "Zm9vYmFy"
  {
    Sextets(0x66, 0, 0);
    Sextets(0x66, 0x6F, 0);
    Sextets(0x66, 0x6F, 0x6F);
    Sextets(0x62, 0, 0);
    Sextets(0x62, 0x61, 0);
    Sextets(0x62, 0x61, 0x72);
    var foo: seq<Byte> := [0x66, 0x6F, 0x6F];
    assert forall tail: seq<Byte> :: (foo + tail)[3..] == tail;
  }

  /** The characters that isspace accepts. */
  lemma Spaces(c: char)
    ensures IsSpace(c) <==> c as int in {9, 10, 11, 12, 13, 32}
  {
  }

  /**
   Encoding into base64_enclen(n) + 1 characters and decoding the stored text into
   base64_declen(base64_enclen(n)) bytes returns n and the bytes.
   */
  method RoundTrip(x: seq<Byte>) returns (text: array<char>, n: int, y: array<Byte>, r: int)
    ensures n == |Encode(x)| == text.Length - 1 && text[..n] == Encode(x) && text[n] == '\0'
    ensures y.Length == n / 4 * 3 && r == |x| <= y.Length && y[..r] == x
    ensures Parse(Strip(text[..n])) == Some((y[..r], true))
  {
    hide Encode, Parse, Digit, Char;
    EncodedChars(x);
    EncodeLength(x);
    StripKeeps(Encode(x));
    Canonical(Encode(x), x);
    var len := EncLen(|x|);
    text := new char[len + 1];
    n := EncodeInto(x, text, len + 1);
    var room := DecLen(len);
    y := new Byte[room];
    r := DecodeInto(text[..n], y, room);
  }
}
