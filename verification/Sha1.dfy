/**
 SHA-1 the way xsha1.c computes it: a sixteen-word circular schedule overwritten
 in place, round macros that rotate the roles of five variables instead of their
 values, and a context that buffers an unfinished block between updates.
 Every method is proved against Sha1Spec.
 */
module Sha1 {
  import opened Sha1Spec

  /** The value a word of the workspace has when its four bytes are read on this machine. */
  function Load(block: Block, j: nat, bigEndian: bool): Word
    requires j < 16
  {
    var b := block[4 * j..4 * j + 4];
    if bigEndian then Join(b[0], b[1], b[2], b[3]) else Join(b[3], b[2], b[1], b[0])
  }

  function Swap(l: Word): Word {
    (Rol(l, 24) & 0xFF00FF00) | (Rol(l, 8) & 0x00FF00FF)
  }

  /** blk0_endiansafe: a word in machine order, turned into big-endian order. */
  function EndianSafe(l: Word, bigEndian: bool): Word {
    if bigEndian then l else Swap(l)
  }

  lemma SwapShifts(l: Word)
    ensures Swap(l) == (((l << 24) | (l >> 8)) & 0xFF00FF00) | (((l << 8) | (l >> 24)) & 0x00FF00FF)
  {
    assert Rol(l, 24) == (l << 24) | (l >> 8);
    assert Rol(l, 8) == (l << 8) | (l >> 24);
  }

  lemma ShiftsSwap(p: Byte, q: Byte, r: Byte, s: Byte, l: Word)
    requires l == (s as Word << 24) | (r as Word << 16) | (q as Word << 8) | p as Word
    ensures (((l << 24) | (l >> 8)) & 0xFF00FF00) | (((l << 8) | (l >> 24)) & 0x00FF00FF)
         == (p as Word << 24) | (q as Word << 16) | (r as Word << 8) | s as Word
  {
  }

  lemma SwapReverses(p: Byte, q: Byte, r: Byte, s: Byte)
    ensures Swap(Join(s, r, q, p)) == Join(p, q, r, s)
  {
    var l := Join(s, r, q, p);
    ShiftsSwap(p, q, r, s, l);
    SwapShifts(l);
  }

  /** On either kind of machine blk0 yields the big-endian word that the RFC reads. */
  lemma EndianSafeLoads(block: Block, j: nat, bigEndian: bool)
    requires j < 16
    ensures EndianSafe(Load(block, j, bigEndian), bigEndian) == WordsOf(block)[j]
  {
    var b := block[4 * j..4 * j + 4];
    SwapReverses(b[0], b[1], b[2], b[3]);
  }

  /** The boolean functions of the macros R0 and R1, R2 and R4, and R3. */
  function Select(w: Word, x: Word, y: Word): Word {
    (w & (x ^ y)) ^ y
  }

  function Odd(w: Word, x: Word, y: Word): Word {
    w ^ x ^ y
  }

  function Most(w: Word, x: Word, y: Word): Word {
    ((w | x) & y) | (w & x)
  }

  lemma SelectBits(w: Word, x: Word, y: Word)
    ensures (w & (x ^ y)) ^ y == (w & x) | (!w & y)
  {
  }

  lemma SelectIsCh(w: Word, x: Word, y: Word)
    ensures Select(w, x, y) == Ch(w, x, y)
  {
    SelectBits(w, x, y);
  }

  lemma MostBits(w: Word, x: Word, y: Word)
    ensures ((w | x) & y) | (w & x) == (w & x) | (w & y) | (x & y)
  {
  }

  lemma MostIsMaj(w: Word, x: Word, y: Word)
    ensures Most(w, x, y) == Maj(w, x, y)
  {
    MostBits(w, x, y);
  }

  function Mix(i: nat, w: Word, x: Word, y: Word): Word {
    if i < 20 then Select(w, x, y)
    else if i < 40 then Odd(w, x, y)
    else if i < 60 then Most(w, x, y)
    else Odd(w, x, y)
  }

  /** The macros' functions are the ones the RFC names. */
  lemma MixIsF(i: nat, w: Word, x: Word, y: Word)
    ensures Mix(i, w, x, y) == F(i, w, x, y)
  {
    SelectIsCh(w, x, y);
    MostIsMaj(w, x, y);
  }

  /**
   The values that the computation goes through on one block: the workspace as copied,
   the RFC's schedule, and the registers before each round and after the last.
   */
  datatype Trace = Trace(raw: seq<Word>, w: seq<Word>, r: seq<Regs>)

  ghost predicate Describes(tr: Trace, block: Block, bigEndian: bool, h: Regs) {
    && |tr.raw| == 16 && |tr.w| == 80 && |tr.r| == 81
    && (forall j {:trigger Load(block, j, bigEndian)} :: 0 <= j < 16 ==> tr.raw[j] == Load(block, j, bigEndian))
    && (forall t {:trigger Schedule(WordsOf(block), t)} :: 0 <= t < 80 ==> tr.w[t] == Schedule(WordsOf(block), t))
    && (forall n {:trigger Rounds(WordsOf(block), h, n)} :: 0 <= n <= 80 ==> tr.r[n] == Rounds(WordsOf(block), h, n))
  }

  lemma Description(block: Block, bigEndian: bool, h: Regs) returns (tr: Trace)
    ensures Describes(tr, block, bigEndian, h)
    ensures tr.r[0] == h && Compress(h, block) == Add(h, tr.r[80])
  {
    tr := Trace(seq(16, j requires 0 <= j < 16 => Load(block, j, bigEndian)),
                seq(80, t requires 0 <= t < 80 => Schedule(WordsOf(block), t)),
                seq(81, n requires 0 <= n < 81 => Rounds(WordsOf(block), h, n)));
    assert tr.r[80] == Rounds(WordsOf(block), h, 80);
  }

  /**
   What the circular schedule holds before round `i`: the last sixteen schedule words
   that were computed, and the block's untouched words in the places not reached yet.
   */
  ghost predicate Circular(l: seq<Word>, raw: seq<Word>, w: seq<Word>, i: nat)
    requires |raw| == 16 && |w| == 80 && i <= 80
  {
    && |l| == 16
    && (forall t: nat :: i - 16 <= t < i ==> l[t % 16] == w[t])
    && (forall j: nat :: i <= j < 16 ==> l[j] == raw[j])
  }

  lemma FirstWord(tr: Trace, block: Block, bigEndian: bool, h: Regs, i: nat)
    requires i < 16 && Describes(tr, block, bigEndian, h)
    ensures EndianSafe(tr.raw[i], bigEndian) == tr.w[i]
  {
    EndianSafeLoads(block, i, bigEndian);
    assert tr.w[i] == Schedule(WordsOf(block), i);
  }

  lemma LaterWord(tr: Trace, block: Block, bigEndian: bool, h: Regs, i: nat)
    requires 16 <= i < 80 && Describes(tr, block, bigEndian, h)
    ensures Feed(tr.w[i - 3], tr.w[i - 8], tr.w[i - 14], tr.w[i - 16]) == tr.w[i]
  {
    var m := WordsOf(block);
    assert tr.w[i - 3] == Schedule(m, i - 3) && tr.w[i - 8] == Schedule(m, i - 8);
    assert tr.w[i - 14] == Schedule(m, i - 14) && tr.w[i - 16] == Schedule(m, i - 16);
    assert tr.w[i] == Schedule(m, i);
  }

  /** The four operands of blk(i) lie in the slots of the words i-3, i-8, i-14 and i-16. */
  lemma Slots(l: seq<Word>, raw: seq<Word>, w: seq<Word>, i: nat)
    requires |raw| == 16 && |w| == 80 && 16 <= i < 80 && Circular(l, raw, w, i)
    ensures l[(i + 13) % 16] == w[i - 3] && l[(i + 8) % 16] == w[i - 8]
    ensures l[(i + 2) % 16] == w[i - 14] && l[i % 16] == w[i - 16]
  {
    assert (i - 3) + 16 == i + 13;
    assert (i - 8) + 16 == i + 8;
    assert (i - 14) + 16 == i + 2;
    assert l[(i - 3) % 16] == w[i - 3] && l[(i - 8) % 16] == w[i - 8];
    assert l[(i - 14) % 16] == w[i - 14] && l[(i - 16) % 16] == w[i - 16];
  }

  lemma SlotsDiffer(i: nat, t: nat)
    requires i - 16 < t < i
    ensures t % 16 != i % 16
  {
  }

  lemma CircularStep(l: seq<Word>, raw: seq<Word>, w: seq<Word>, i: nat)
    requires |raw| == 16 && |w| == 80 && i < 80 && Circular(l, raw, w, i)
    ensures Circular(l[i % 16 := w[i]], raw, w, i + 1)
  {
    forall t: nat | i + 1 - 16 <= t < i + 1
      ensures l[i % 16 := w[i]][t % 16] == w[t]
    {
      if t < i {
        SlotsDiffer(i, t);
      }
    }
  }

  /** The macros blk0 and blk: the schedule word of round `i`, computed into its slot. */
  method Expand(l: array<Word>, i: nat, bigEndian: bool, ghost tr: Trace, ghost block: Block, ghost h: Regs)
    returns (word: Word)
    requires i < 80 && Describes(tr, block, bigEndian, h) && Circular(l[..], tr.raw, tr.w, i)
    modifies l
    ensures Circular(l[..], tr.raw, tr.w, i + 1)
    ensures word == tr.w[i]
  {
    ghost var before := l[..];
    if i < 16 {
      FirstWord(tr, block, bigEndian, h, i);
      word := EndianSafe(l[i], bigEndian);
    } else {
      Slots(before, tr.raw, tr.w, i);
      LaterWord(tr, block, bigEndian, h, i);
      word := Feed(l[(i + 13) % 16], l[(i + 8) % 16], l[(i + 2) % 16], l[i % 16]);
    }
    l[i % 16] := word;
    CircularStep(before, tr.raw, tr.w, i);
    assert l[..] == before[i % 16 := tr.w[i]];
  }

  /** The value that a macro's `+=` gives its last variable. */
  function Bumped(z: Word, f: Word, word: Word, k: Word, rotated: Word): Word {
    z + (f + word + k + rotated)
  }

  lemma BumpedIsTemp(z: Word, f: Word, word: Word, k: Word, rotated: Word)
    ensures Bumped(z, f, word, k, rotated) == Temp(rotated, f, z, word, k)
  {
  }

  /** What a macro assigns to its last and its second variable are the RFC's TEMP and S^30(B). */
  lemma RoundInPlace(tr: Trace, block: Block, bigEndian: bool, h: Regs, i: nat)
    requires Describes(tr, block, bigEndian, h) && i < 80
    ensures var q := tr.r[i];
            tr.r[i + 1]
            == Regs(Bumped(q.e, Mix(i, q.b, q.c, q.d), tr.w[i], K(i), Rol(q.a, 5)), q.a, Rol(q.b, 30), q.c, q.d)
  {
    var q, m := tr.r[i], WordsOf(block);
    assert tr.r[i] == Rounds(m, h, i);
    assert tr.w[i] == Schedule(m, i);
    assert tr.r[i + 1] == Rounds(m, h, i + 1) == Round(m, q, i);
    MixIsF(i, q.b, q.c, q.d);
    BumpedIsTemp(q.e, F(i, q.b, q.c, q.d), tr.w[i], K(i), Rol(q.a, 5));
  }

  /**
   One use of a macro R0 .. R4. The caller passes the five variables in the order of
   their roles; `z` and `w` are the two that the macro assigns.
   */
  method R(l: array<Word>, v: Word, w: Word, x: Word, y: Word, z: Word, i: nat, bigEndian: bool,
           ghost tr: Trace, ghost block: Block, ghost h: Regs)
    returns (w': Word, z': Word)
    requires i < 80 && Describes(tr, block, bigEndian, h) && Circular(l[..], tr.raw, tr.w, i)
    requires tr.r[i] == Regs(v, w, x, y, z)
    modifies l
    ensures Circular(l[..], tr.raw, tr.w, i + 1)
    ensures tr.r[i + 1] == Regs(z', v, w', x, y)
  {
    var word := Expand(l, i, bigEndian, tr, block, h);
    RoundInPlace(tr, block, bigEndian, h, i);
    z' := Bumped(z, Mix(i, w, x, y), word, K(i), Rol(v, 5));
    w' := Rol(w, 30);
  }

  ghost function RegsOf(state: seq<Word>): Regs
    requires |state| == 5
  {
    Regs(state[0], state[1], state[2], state[3], state[4])
  }

  /** The eighty macro uses of SHA1Transform, which are sixteen repetitions of these five role orders. */
  method AllRounds(l: array<Word>, v: Regs, bigEndian: bool, ghost tr: Trace, ghost block: Block)
    returns (v': Regs)
    requires Describes(tr, block, bigEndian, v) && l[..] == tr.raw && tr.r[0] == v
    modifies l
    ensures v' == tr.r[80]
  {
    hide Load, Schedule, Rounds, WordsOf;
    var a, b, c, d, e := v.a, v.b, v.c, v.d, v.e;
    var i := 0;
    while i < 80
      invariant 0 <= i <= 80 && i % 5 == 0
      invariant Circular(l[..], tr.raw, tr.w, i)
      invariant tr.r[i] == Regs(a, b, c, d, e)
    {
      b, e := R(l, a, b, c, d, e, i, bigEndian, tr, block, v);
      a, d := R(l, e, a, b, c, d, i + 1, bigEndian, tr, block, v);
      e, c := R(l, d, e, a, b, c, i + 2, bigEndian, tr, block, v);
      d, b := R(l, c, d, e, a, b, i + 3, bigEndian, tr, block, v);
      c, a := R(l, b, c, d, e, a, i + 4, bigEndian, tr, block, v);
      i := i + 5;
    }
    v' := Regs(a, b, c, d, e);
  }

  method AddInto(state: array<Word>, v: Regs)
    requires state.Length == 5
    modifies state
    ensures RegsOf(state[..]) == Add(old(RegsOf(state[..])), v)
  {
    var sum := Add(Regs(state[0], state[1], state[2], state[3], state[4]), v);
    state[0], state[1], state[2], state[3], state[4] := sum.a, sum.b, sum.c, sum.d, sum.e;
  }

  /** SHA1Transform. */
  method Transform(state: array<Word>, buffer: seq<Byte>, bigEndian: bool)
    requires state.Length == 5 && |buffer| == 64
    modifies state
    ensures RegsOf(state[..]) == Compress(old(RegsOf(state[..])), buffer)
  {
    ghost var tr := Description(buffer, bigEndian, RegsOf(state[..]));
    var l := new Word[16](j requires 0 <= j < 16 => Load(buffer, j, bigEndian));
    assert l[..] == tr.raw by {
      assert forall j :: 0 <= j < 16 ==> tr.raw[j] == Load(buffer, j, bigEndian);
    }
    var v := AllRounds(l, Regs(state[0], state[1], state[2], state[3], state[4]), bigEndian, tr, buffer);
    AddInto(state, v);
  }

  // ----- the counter of bits, kept as two 32-bit halves -----

  ghost predicate CountIs(c0: nat, c1: nat, n: nat) {
    && c0 < TWO_32 && c1 < TWO_32
    && c1 * TWO_32 + c0 == 8 * n % TWO_64
  }

  /** The low half tells how full the buffer is. */
  lemma LowHalf(c0: nat, c1: nat, n: nat)
    requires CountIs(c0, c1, n)
    ensures c0 / 8 % 64 == n % 64
    ensures c0 % 512 - c0 % 8 == 8 * (n % 64)
  {
    var q := 8 * n / TWO_64;
    assert 8 * n == q * TWO_64 + c1 * TWO_32 + c0;
    LowBits(c0, n, q * 0x80_0000_0000_0000 + c1 * 0x80_0000);
  }

  lemma LowBits(c0: nat, n: nat, k: nat)
    requires c0 == 8 * (n - 64 * k)
    ensures c0 / 8 % 64 == n % 64
    ensures c0 % 512 - c0 % 8 == 8 * (n % 64)
  {
    var p, r := n / 64, n % 64;
    assert c0 / 8 == 64 * (p - k) + r;
    assert c0 == 512 * (p - k) + 8 * r;
  }

  lemma HalvesOf(c0: nat, c1: nat)
    requires c0 < TWO_32 && c1 < TWO_32
    ensures (c1 * TWO_32 + c0) / TWO_32 % TWO_32 == c1 && (c1 * TWO_32 + c0) % TWO_32 == c0
  {
  }

  /** Before 448 bits are reached, zero bytes are still missing. */
  lemma ZerosLeft(n: nat, k: nat)
    requires k <= PadZeros(n) && 8 * ((n + 1 + k) % 64) != 448
    ensures k < PadZeros(n)
  {
    PadZerosReaches56(n);
  }

  /** The carry test of SHA1Update adds `8 * len` to the 64-bit count, whatever the count was. */
  lemma CountAdds(c0: nat, c1: nat, n: nat, len: nat)
    requires CountIs(c0, c1, n) && len < TWO_32
    ensures var shifted := len * 8 % TWO_32;
            var low := (c0 + shifted) % TWO_32;
            var carried := if low < shifted then (c1 + 1) % TWO_32 else c1;
            var high := (carried + len / 0x2000_0000) % TWO_32;
            CountIs(low, high, n + len)
  {
    var q, top, shifted := 8 * n / TWO_64, len / 0x2000_0000, len * 8 % TWO_32;
    assert len * 8 == top * TWO_32 + shifted;
    var low := (c0 + shifted) % TWO_32;
    var carry := if low < shifted then 1 else 0;
    assert c0 + shifted == carry * TWO_32 + low;
    HighHalf(q, c1, carry, top, low);
    assert 8 * n == q * TWO_64 + c1 * TWO_32 + c0;
    assert 8 * (n + len) == q * TWO_64 + (c1 + carry + top) * TWO_32 + low;
  }

  lemma HighHalf(q: nat, c1: nat, carry: nat, top: nat, low: nat)
    requires c1 < TWO_32 && carry <= 1 && top < 8 && low < TWO_32
    ensures var carried := if carry == 1 then (c1 + 1) % TWO_32 else c1;
            var high := (carried + top) % TWO_32;
            high * TWO_32 + low == (q * TWO_64 + (c1 + carry + top) * TWO_32 + low) % TWO_64
  {
    var total := c1 + carry + top;
    var over := if total >= TWO_32 then 1 else 0;
    var high := total - over * TWO_32;
    ModuloOf((q + over), high * TWO_32 + low);
    assert q * TWO_64 + total * TWO_32 + low == (q + over) * TWO_64 + (high * TWO_32 + low);
    var carried := if carry == 1 then (c1 + 1) % TWO_32 else c1;
    assert carried == c1 + carry || (carried == 0 && c1 + carry == TWO_32);
  }

  lemma ModuloOf(q: nat, r: nat)
    requires r < TWO_64
    ensures (q * TWO_64 + r) % TWO_64 == r
  {
  }

  /**
   The unfilled-buffer branch of SHA1Update copies `len` bytes to position `j`. The
   32-bit test before it protects the buffer exactly when the sum does not wrap.
   */
  lemma WrapDefeatsTheTest(j: nat, len: nat)
    requires j < 64 && len < TWO_32
    ensures ((j + len) % TWO_32 <= 63 ==> j + len <= 64) <==> j + len < TWO_32
  {
    if j + len >= TWO_32 {
      assert (j + len) % TWO_32 == j + len - TWO_32;
    }
  }

  /** The end of the last whole block of `n` bytes. */
  function Boundary(n: nat): (cut: nat)
    ensures cut <= n < cut + 64 && cut % 64 == 0
  {
    64 * (n / 64)
  }

  lemma BoundaryIs(n: nat, cut: nat)
    requires cut <= n < cut + 64 && cut % 64 == 0
    ensures cut == Boundary(n)
  {
  }

  /** Filling up the buffered bytes behind `cut` completes one more block. */
  lemma AbsorbFilled(h: Regs, message: seq<Byte>, cut: nat, fill: seq<Byte>)
    requires cut <= |message| && cut % 64 == 0 && |message| - cut + |fill| == 64 && 0 < |fill|
    ensures Absorb(h, message + fill) == Compress(Absorb(h, message), message[cut..] + fill)
  {
    var head, tail := message[..cut], message[cut..];
    assert message == head + tail;
    assert message + fill == head + (tail + fill);
    AbsorbTail(h, head, tail);
    AbsorbBlock(h, head, tail + fill);
  }

  /** Bytes that leave the buffer unfilled have no effect on the chaining value. */
  lemma StillUnfilled(h: Regs, message: seq<Byte>, cut: nat, data: seq<Byte>)
    requires cut <= |message| && cut % 64 == 0 && |message| - cut + |data| < 64
    ensures (message + data)[cut..] == message[cut..] + data
    ensures Absorb(h, message + data) == Absorb(h, message)
  {
    var head, tail := message[..cut], message[cut..];
    assert message == head + tail;
    assert message + data == head + (tail + data);
    UnfilledTail(h, head, tail, data);
  }

  lemma UnfilledTail(h: Regs, head: seq<Byte>, tail: seq<Byte>, data: seq<Byte>)
    requires |head| % 64 == 0 && |tail| + |data| < 64
    ensures Absorb(h, head + (tail + data)) == Absorb(h, head + tail)
  {
    AbsorbTail(h, head, tail);
    AbsorbTail(h, head, tail + data);
  }

  lemma AbsorbStep(h: Regs, data: seq<Byte>, first: nat, i: nat)
    requires first <= i && i + 64 <= |data| && (i - first) % 64 == 0
    ensures Absorb(h, data[first..i + 64]) == Compress(Absorb(h, data[first..i]), data[i..i + 64])
  {
    AbsorbBlock(h, data[first..i], data[i..i + 64]);
    assert data[first..i + 64] == data[first..i] + data[i..i + 64];
  }

  /** The filled block, the whole blocks after it and an unfinished rest, absorbed in turn. */
  lemma AbsorbPieces(h: Regs, whole: seq<Byte>, data: seq<Byte>, k: nat)
    requires k <= |data| < k + 64 && |whole| % 64 == 0 && k % 64 == 0
    ensures Absorb(h, whole + data) == Absorb(Absorb(h, whole), data[..k])
  {
    AbsorbConcat(h, whole, data);
    AbsorbTail(Absorb(h, whole), data[..k], data[k..]);
    assert data == data[..k] + data[k..];
  }

  lemma CutAfter(message: seq<Byte>, data: seq<Byte>, first: nat, i: nat)
    requires first <= i <= |data| < i + 64
    requires (|message| + first) % 64 == 0 && (i - first) % 64 == 0
    ensures message + data == message + data[..first] + data[first..]
    ensures data[first..][..i - first] == data[first..i]
    ensures (message + data)[|message| + i..] == data[i..]
    ensures |message| + i == Boundary(|message + data|)
  {
    var p, q := (|message| + first) / 64, (i - first) / 64;
    assert |message| + i == 64 * (p + q);
  }

  /** The 32-bit loop test of SHA1Update never wraps at a block boundary. */
  lemma NoWrap(first: nat, len: nat, i: nat)
    requires first <= 64 && 64 - first + len < TWO_32 && first <= i <= len && (i - first) % 64 == 0
    ensures i + 63 < TWO_32
  {
    assert i - first == 64 * ((i - first) / 64);
  }

  /** The buffer starts with the bytes of `message` behind its last whole block. */
  ghost predicate Holds(b: seq<Byte>, message: seq<Byte>) {
    |b| == 64 && b[..|message| - Boundary(|message|)] == message[Boundary(|message|)..]
  }

  /** SHA1_CTX. `message` is every byte given to Update since Init. */
  class Context {
    const state: array<Word>
    const buffer: array<Byte>
    var count0: nat
    var count1: nat
    const bigEndian: bool
    ghost var message: seq<Byte>

    ghost predicate Valid()
      reads this, state, buffer
    {
      && state.Length == 5 && buffer.Length == 64
      && CountIs(count0, count1, |message|)
      && Holds(buffer[..], message)
      && RegsOf(state[..]) == Absorb(INITIAL, message)
    }

    /** SHA1Init. */
    constructor (bigEndian: bool)
      ensures Valid() && message == [] && fresh(state) && fresh(buffer)
      ensures this.bigEndian == bigEndian
    {
      this.bigEndian := bigEndian;
      state := new Word[5] [INITIAL.a, INITIAL.b, INITIAL.c, INITIAL.d, INITIAL.e];
      buffer := new Byte[64];
      count0, count1 := 0, 0;
      message := [];
    }

    /** memcpy(&buffer[j], data, |data|). */
    method CopyIn(j: nat, data: seq<Byte>)
      requires j + |data| <= buffer.Length
      modifies buffer
      ensures buffer[..] == old(buffer[..j]) + data + old(buffer[j + |data|..])
    {
      forall k | 0 <= k < |data| {
        buffer[j + k] := data[k];
      }
    }

    /** The bit count of SHA1Update. */
    method AddToCount(len: nat)
      requires CountIs(count0, count1, |message|) && len < TWO_32
      modifies this`count0, this`count1
      ensures CountIs(count0, count1, |message| + len)
    {
      CountAdds(count0, count1, |message|, len);
      var shifted := len * 8 % TWO_32;
      count0 := (count0 + shifted) % TWO_32;
      if count0 < shifted {
        count1 := (count1 + 1) % TWO_32;
      }
      count1 := (count1 + len / 0x2000_0000) % TWO_32;
    }

    /** The loop of SHA1Update over the whole blocks of `data` from `first` on. */
    method AbsorbWhole(data: seq<Byte>, first: nat) returns (i: nat)
      requires state.Length == 5 && first <= 64 && first <= |data| && 64 - first + |data| < TWO_32
      modifies state
      ensures first <= i <= |data| < i + 64 && (i - first) % 64 == 0
      ensures RegsOf(state[..]) == Absorb(old(RegsOf(state[..])), data[first..i])
    {
      hide Compress;
      ghost var h := RegsOf(state[..]);
      i := first;
      while (i + 63) % TWO_32 < |data|
        invariant first <= i <= |data| && (i - first) % 64 == 0
        invariant RegsOf(state[..]) == Absorb(h, data[first..i])
        decreases |data| - i
      {
        NoWrap(first, |data|, i);
        AbsorbStep(h, data, first, i);
        Transform(state, data[i..i + 64], bigEndian);
        i := i + 64;
      }
      NoWrap(first, |data|, i);
    }

    /** The branch of SHA1Update that fills the buffer; returns how many bytes it has absorbed. */
    method FillAndAbsorb(j: nat, data: seq<Byte>) returns (i: nat)
      requires state.Length == 5 && buffer.Length == 64 && j < 64 && j + |data| < TWO_32
      requires j == |message| - Boundary(|message|) && Holds(buffer[..], message)
      requires RegsOf(state[..]) == Absorb(INITIAL, message) && 64 - j <= |data|
      modifies state, buffer
      ensures i <= |data| < i + 64 && |message| + i == Boundary(|message + data|)
      ensures RegsOf(state[..]) == Absorb(INITIAL, message + data)
    {
      hide Absorb, Compress;
      var first := 64 - j;
      ghost var cut := Boundary(|message|);
      AbsorbFilled(INITIAL, message, cut, data[..first]);
      CopyIn(j, data[..first]);
      assert buffer[..] == message[cut..] + data[..first];
      Transform(state, buffer[..], bigEndian);
      i := AbsorbWhole(data, first);
      CutAfter(message, data, first, i);
      AbsorbPieces(INITIAL, message + data[..first], data[first..], i - first);
    }

    /** The branch of SHA1Update that leaves the buffer unfilled. */
    method KeepUnfilled(j: nat, data: seq<Byte>)
      requires state.Length == 5 && buffer.Length == 64 && j + |data| < 64
      requires j == |message| - Boundary(|message|) && Holds(buffer[..], message)
      requires RegsOf(state[..]) == Absorb(INITIAL, message)
      modifies buffer
      ensures Holds(buffer[..], message + data)
      ensures RegsOf(state[..]) == Absorb(INITIAL, message + data)
    {
      hide Absorb, Compress;
      StillUnfilled(INITIAL, message, Boundary(|message|), data);
      BoundaryIs(|message + data|, Boundary(|message|));
      CopyIn(j, data);
      assert buffer[..][..j + |data|] == message[Boundary(|message|)..] + data;
    }

    /** Both branches of SHA1Update. */
    method Take(j: nat, data: seq<Byte>)
      requires state.Length == 5 && buffer.Length == 64 && j < 64 && j + |data| < TWO_32
      requires j == |message| - Boundary(|message|) && Holds(buffer[..], message)
      requires RegsOf(state[..]) == Absorb(INITIAL, message)
      modifies state, buffer
      ensures Holds(buffer[..], message + data)
      ensures RegsOf(state[..]) == Absorb(INITIAL, message + data)
    {
      hide Absorb, Compress;
      if (j + |data|) % TWO_32 > 63 {
        var i := FillAndAbsorb(j, data);
        CopyIn(0, data[i..]);
        assert (message + data)[|message| + i..] == data[i..];
        assert buffer[..][..|data| - i] == data[i..];
      } else {
        KeepUnfilled(j, data);
      }
    }

    /** SHA1Update. */
    method Update(data: seq<Byte>)
      requires Valid()
      requires |message| % 64 + |data| < TWO_32
      modifies this, state, buffer
      ensures Valid() && message == old(message) + data
    {
      hide Absorb, Compress, Holds;
      LowHalf(count0, count1, |message|);
      var j := count0 / 8 % 64;
      assert j == |message| - Boundary(|message|);
      AddToCount(|data|);
      Take(j, data);
      message := message + data;
    }

    /** The first loop of SHA1Final: the bit count, most significant byte first. */
    method FinalCount() returns (finalcount: seq<Byte>)
      requires CountIs(count0, count1, |message|)
      ensures finalcount == LengthField(8 * |message| % TWO_64)
    {
      HalvesOf(count0, count1);
      finalcount := [];
      for i := 0 to 8
        invariant |finalcount| == i
        invariant forall k :: 0 <= k < i ==> finalcount[k] == LengthByte(8 * |message| % TWO_64, k)
      {
        var half := if i >= 4 then count0 else count1;
        finalcount := finalcount + [(half / Pow256(3 - i % 4) % 256) as Byte];
      }
    }

    /** The padding loop of SHA1Final; it ends, and after the fewest zero bytes that reach 448 bits. */
    method PadTo448(ghost start: seq<Byte>)
      requires Valid() && message == start + [0x80]
      modifies this, state, buffer
      ensures Valid() && message == start + [0x80] + Zeros(PadZeros(|start|))
    {
      hide Absorb, Compress;
      ghost var k := 0;
      assert message == start + [0x80] + Zeros(0);
      LowHalf(count0, count1, |message|);
      while count0 % 512 - count0 % 8 != 448
        invariant Valid() && k <= PadZeros(|start|) && message == start + [0x80] + Zeros(k)
        invariant count0 % 512 - count0 % 8 == 8 * (|message| % 64)
        decreases PadZeros(|start|) - k
      {
        ZerosLeft(|start|, k);
        Update([0]);
        assert Zeros(k + 1) == Zeros(k) + [0];
        k := k + 1;
        LowHalf(count0, count1, |message|);
      }
      PadZerosIsLeast(|start|, k);
    }

    /** The last loop of SHA1Final. */
    method DigestOf() returns (digest: seq<Byte>)
      requires state.Length == 5
      ensures digest == DigestBytes(RegsOf(state[..]))
    {
      digest := [];
      for i := 0 to DIGEST
        invariant |digest| == i
        invariant forall k :: 0 <= k < i ==> digest[k] == DigestBytes(RegsOf(state[..]))[k]
      {
        assert state[i / 4] == WordAt(RegsOf(state[..]), i / 4);
        digest := digest + [ByteAt(state[i / 4], i % 4)];
      }
    }

    /** SHA1Final: the digest of everything given to Update; the context is wiped. */
    method Final() returns (digest: seq<Byte>)
      requires Valid()
      modifies this, state, buffer
      ensures digest == Digest(old(message))
      ensures count0 == count1 == 0
      ensures (forall k :: 0 <= k < 5 ==> state[k] == 0) && (forall k :: 0 <= k < 64 ==> buffer[k] == 0)
    {
      ghost var start := message;
      var finalcount := FinalCount();
      Update([0x80]);
      PadTo448(start);
      Update(finalcount);
      assert message == Pad(start);
      digest := DigestOf();
      forall k | 0 <= k < 64 {
        buffer[k] := 0;
      }
      forall k | 0 <= k < 5 {
        state[k] := 0;
      }
      count0, count1 := 0, 0;
    }
  }
}
