/**
 SHA-1 the way sections 3 to 6.1 of RFC 3174 define it: an 80-word schedule, a
 round function on the five registers, padding to whole 64-byte blocks, and the
 fold of the compression function over those blocks.

 Nothing here mentions how xsha1.c computes the same digest.
 */
module Sha1Spec {

  type Byte = bv8
  type Word = bv32
  type Block = b: seq<Byte> | |b| == 64 witness seq(64, _ => 0)

  const DIGEST: nat := 20
  const TWO_32: nat := 0x1_0000_0000
  const TWO_64: nat := 0x1_0000_0000_0000_0000

  datatype Regs = Regs(a: Word, b: Word, c: Word, d: Word, e: Word)

  const INITIAL := Regs(0x67452301, 0xEFCDAB89, 0x98BADCFE, 0x10325476, 0xC3D2E1F0)

  /** The circular left shift S^n(X). */
  function Rol(x: Word, n: bv32): Word
    requires 0 < n < 32
  {
    (x << n) | (x >> (32 - n))
  }

  /** The word with these four bytes, most significant first. */
  function Join(p: Byte, q: Byte, r: Byte, s: Byte): Word {
    (p as Word << 24) | (q as Word << 16) | (r as Word << 8) | s as Word
  }

  function WordOf(b: seq<Byte>): Word
    requires |b| == 4
  {
    Join(b[0], b[1], b[2], b[3])
  }

  /** Byte `k` of a word, counted from the most significant. */
  function ByteAt(w: Word, k: nat): Byte
    requires k < 4
  {
    var shift: bv32 := if k == 0 then 24 else if k == 1 then 16 else if k == 2 then 8 else 0;
    ((w >> shift) & 0xFF) as Byte
  }

  /** The sixteen words M(0) .. M(15) of a block. */
  function WordsOf(block: Block): (m: seq<Word>)
    ensures |m| == 16
    ensures forall j :: 0 <= j < 16 ==> m[j] == WordOf(block[4 * j..4 * j + 4])
  {
    seq(16, j requires 0 <= j < 16 => WordOf(block[4 * j..4 * j + 4]))
  }

  /** S^1 of the exclusive or of four earlier schedule words. */
  function Feed(p: Word, q: Word, r: Word, s: Word): Word {
    Rol(p ^ q ^ r ^ s, 1)
  }

  /** W(t) of section 6.1, steps a and b. */
  function Schedule(m: seq<Word>, t: nat): Word
    requires |m| == 16
  {
    if t < 16 then m[t]
    else Feed(Schedule(m, t - 3), Schedule(m, t - 8), Schedule(m, t - 14), Schedule(m, t - 16))
  }

  function Ch(b: Word, c: Word, d: Word): Word {
    (b & c) | (!b & d)
  }

  function Parity(b: Word, c: Word, d: Word): Word {
    b ^ c ^ d
  }

  function Maj(b: Word, c: Word, d: Word): Word {
    (b & c) | (b & d) | (c & d)
  }

  /** f(t;B,C,D) of section 5. */
  function F(t: nat, b: Word, c: Word, d: Word): Word {
    if t < 20 then Ch(b, c, d)
    else if t < 40 then Parity(b, c, d)
    else if t < 60 then Maj(b, c, d)
    else Parity(b, c, d)
  }

  /** K(t) of section 5. */
  function K(t: nat): Word {
    if t < 20 then 0x5A827999 else if t < 40 then 0x6ED9EBA1 else if t < 60 then 0x8F1BBCDC else 0xCA62C1D6
  }

  /** The sum that section 6.1 assigns to TEMP. */
  function Temp(rotated: Word, f: Word, e: Word, w: Word, k: Word): Word {
    rotated + f + e + w + k
  }

  /** Section 6.1, step d, for one t. */
  function Round(m: seq<Word>, r: Regs, t: nat): Regs
    requires |m| == 16
  {
    var temp := Temp(Rol(r.a, 5), F(t, r.b, r.c, r.d), r.e, Schedule(m, t), K(t));
    Regs(temp, r.a, Rol(r.b, 30), r.c, r.d)
  }

  /** The registers after the rounds 0 .. n-1. */
  function Rounds(m: seq<Word>, r: Regs, n: nat): Regs
    requires |m| == 16
  {
    if n == 0 then r else Round(m, Rounds(m, r, n - 1), n - 1)
  }

  function Add(x: Regs, y: Regs): Regs {
    Regs(x.a + y.a, x.b + y.b, x.c + y.c, x.d + y.d, x.e + y.e)
  }

  /** Section 6.1, steps a to e, for one block: eighty rounds, five for each of its sixteen words. */
  function Compress(h: Regs, block: Block): Regs {
    var m := WordsOf(block);
    Add(h, Rounds(m, h, 5 * |m|))
  }

  /** The chaining value after every whole block of `s`; bytes of an unfinished last block are ignored. */
  function Absorb(h: Regs, s: seq<Byte>): Regs
    decreases |s|
  {
    if |s| < 64 then h else Absorb(Compress(h, s[..64]), s[64..])
  }

  function Zeros(n: nat): (z: seq<Byte>)
    ensures |z| == n
    ensures forall i :: 0 <= i < n ==> z[i] == 0
  {
    seq(n, _ => 0)
  }

  /** How many zero bytes section 4 puts between the 0x80 byte and the length. */
  function PadZeros(n: nat): nat {
    (119 - n % 64) % 64
  }

  /** The 64-bit big-endian representation of a bit count. */
  function LengthField(bits: nat): (b: seq<Byte>)
    ensures |b| == 8
  {
    seq(8, i requires 0 <= i < 8 => LengthByte(bits, i))
  }

  /** Byte `i` of the eight, taken from the high or from the low 32-bit half. */
  function LengthByte(bits: nat, i: nat): Byte
    requires i < 8
  {
    var half := if i < 4 then bits / TWO_32 % TWO_32 else bits % TWO_32;
    (half / Pow256(3 - i % 4) % 256) as Byte
  }

  function Pow256(k: nat): (p: nat)
    requires k < 4
    ensures p > 0
  {
    if k == 0 then 1 else if k == 1 then 0x100 else if k == 2 then 0x1_0000 else 0x100_0000
  }

  /** Section 4; a message of 2^64 bits or more, which the RFC does not define, wraps its length field. */
  function Pad(message: seq<Byte>): (p: seq<Byte>)
  {
    message + [0x80] + Zeros(PadZeros(|message|)) + LengthField(8 * |message| % TWO_64)
  }

  function WordAt(r: Regs, k: nat): Word
    requires k < 5
  {
    if k == 0 then r.a else if k == 1 then r.b else if k == 2 then r.c else if k == 3 then r.d else r.e
  }

  function DigestBytes(r: Regs): (d: seq<Byte>)
    ensures |d| == DIGEST
  {
    seq(DIGEST, i requires 0 <= i < DIGEST => ByteAt(WordAt(r, i / 4), i % 4))
  }

  function Digest(message: seq<Byte>): (d: seq<Byte>)
    ensures |d| == DIGEST
  {
    DigestBytes(Absorb(INITIAL, Pad(message)))
  }

  /** Filling with PadZeros bytes leaves the padded length at 56 modulo 64 before the length field ... */
  lemma PadZerosReaches56(n: nat)
    ensures (n + 1 + PadZeros(n)) % 64 == 56
  {
    var q, r := n / 64, n % 64;
    assert n + 1 + PadZeros(n) == 64 * (if r <= 55 then q else q + 1) + 56;
  }

  /** ... and no smaller count does. */
  lemma PadZerosIsLeast(n: nat, k: nat)
    requires (n + 1 + k) % 64 == 56
    ensures PadZeros(n) <= k
  {
    var p, q, r := (n + 1 + k) / 64, n / 64, n % 64;
    assert k == 64 * (p - q) + 55 - r;
  }

  lemma PadLength(message: seq<Byte>)
    ensures |Pad(message)| == |message| + 1 + PadZeros(|message|) + 8
  {
  }

  function Flatten(pieces: seq<seq<Byte>>): seq<Byte> {
    if pieces == [] then [] else pieces[0] + Flatten(pieces[1..])
  }

  /** Section 4: the padded message is a whole number of blocks. */
  lemma PadFillsBlocks(message: seq<Byte>)
    ensures |Pad(message)| % 64 == 0
  {
    hide Pad, PadZeros;
    PadLength(message);
    PadZerosReaches56(|message|);
    RoundedUp(|message| + 1 + PadZeros(|message|));
  }

  lemma RoundedUp(p: nat)
    requires p % 64 == 56
    ensures (p + 8) % 64 == 0
  {
    assert p + 8 == 64 * (p / 64) + 64;
  }

  /** Absorbing a concatenation is absorbing its parts in turn, wherever the cut falls between blocks. */
  lemma {:induction false} AbsorbConcat(h: Regs, s: seq<Byte>, t: seq<Byte>)
    requires |s| % 64 == 0
    ensures Absorb(h, s + t) == Absorb(Absorb(h, s), t)
    decreases |s|
  {
    if |s| == 0 {
      assert s + t == t;
    } else {
      assert (s + t)[..64] == s[..64];
      assert (s + t)[64..] == s[64..] + t;
      AbsorbConcat(Compress(h, s[..64]), s[64..], t);
    }
  }

  /** One more block, one more compression. */
  lemma AbsorbBlock(h: Regs, s: seq<Byte>, block: Block)
    requires |s| % 64 == 0
    ensures Absorb(h, s + block) == Compress(Absorb(h, s), block)
  {
    AbsorbConcat(h, s, block);
    assert block[..64] == block;
    assert |block[64..]| == 0;
  }

  /** Bytes of an unfinished block have no effect. */
  lemma AbsorbTail(h: Regs, s: seq<Byte>, t: seq<Byte>)
    requires |s| % 64 == 0 && |t| < 64
    ensures Absorb(h, s + t) == Absorb(h, s)
  {
    AbsorbConcat(h, s, t);
  }
}
