/**
 HMAC-SHA1 and the 802.11i pseudo-random function of xsha1.c, built on the SHA-1
 context and proved against section 2 of RFC 2104 and section 8.5.1.1 of IEEE 802.11i.
 */
module Hmac {
  import opened Sha1Spec
  import opened Sha1

  // ----- the definitions of the standards -----

  /** The key as RFC 2104 uses it: hashed when longer than a block, then filled up with zeros. */
  function PadKey(key: seq<Byte>): (k: seq<Byte>)
    ensures |k| == 64
  {
    var short := if |key| > 64 then Digest(key) else key;
    short + Zeros(64 - |short|)
  }

  function XorAll(k: seq<Byte>, pad: Byte): (x: seq<Byte>)
    ensures |x| == |k|
  {
    seq(|k|, i requires 0 <= i < |k| => k[i] ^ pad)
  }

  /** H(K XOR opad, H(K XOR ipad, text)). */
  function HmacOf(key: seq<Byte>, text: seq<Byte>): (mac: seq<Byte>)
    ensures |mac| == DIGEST
  {
    var k := PadKey(key);
    Digest(XorAll(k, 0x5c) + Digest(XorAll(k, 0x36) + text))
  }

  /** One 160-bit output block: the key over A, a zero byte, B and the single-byte counter. */
  function PrfBlock(key: seq<Byte>, name: seq<Byte>, data: seq<Byte>, k: nat): (b: seq<Byte>)
    ensures |b| == DIGEST
  {
    HmacOf(key, name + [0] + data + [(k % 256) as Byte])
  }

  function PrfBlocks(key: seq<Byte>, name: seq<Byte>, data: seq<Byte>, n: nat): (s: seq<Byte>)
    ensures |s| == DIGEST * n
  {
    if n == 0 then [] else PrfBlocks(key, name, data, n - 1) + PrfBlock(key, name, data, n - 1)
  }

  /** L(R, 0, Len): enough whole blocks, cut to length. */
  function Prf(key: seq<Byte>, name: seq<Byte>, data: seq<Byte>, len: nat): (s: seq<Byte>)
    ensures |s| == len
  {
    PrfBlocks(key, name, data, (len + DIGEST - 1) / DIGEST)[..len]
  }

  /** More blocks never change the earlier ones. */
  lemma {:induction false} BlocksExtend(key: seq<Byte>, name: seq<Byte>, data: seq<Byte>, m: nat, n: nat)
    requires m <= n
    ensures PrfBlocks(key, name, data, n)[..DIGEST * m] == PrfBlocks(key, name, data, m)
    decreases n
  {
    hide PrfBlock;
    if m < n {
      BlocksExtend(key, name, data, m, n - 1);
      var shorter, last := PrfBlocks(key, name, data, n - 1), PrfBlock(key, name, data, n - 1);
      assert PrfBlocks(key, name, data, n) == shorter + last;
      assert (shorter + last)[..DIGEST * m] == shorter[..DIGEST * m];
    }
  }

  /** A shorter output is a prefix of every longer one. */
  lemma PrfPrefix(key: seq<Byte>, name: seq<Byte>, data: seq<Byte>, shorter: nat, longer: nat)
    requires shorter <= longer
    ensures Prf(key, name, data, longer)[..shorter] == Prf(key, name, data, shorter)
  {
    hide PrfBlock, PrfBlocks;
    var m, n := (shorter + DIGEST - 1) / DIGEST, (longer + DIGEST - 1) / DIGEST;
    BlocksExtend(key, name, data, m, n);
    var all := PrfBlocks(key, name, data, n);
    assert all[..shorter] == all[..DIGEST * m][..shorter];
    assert all[..longer][..shorter] == all[..shorter];
  }

  /** The counter is one byte, so the blocks repeat after 256. */
  lemma CounterWraps(key: seq<Byte>, name: seq<Byte>, data: seq<Byte>, k: nat)
    ensures PrfBlock(key, name, data, k % 256) == PrfBlock(key, name, data, k)
  {
    hide HmacOf;
    assert k % 256 % 256 == k % 256;
  }

  /** Byte `i` of any long enough output is byte i mod 20 of block i / 20, with the counter taken modulo 256. */
  lemma PrfByte(key: seq<Byte>, name: seq<Byte>, data: seq<Byte>, len: nat, i: nat)
    requires i < len
    ensures Prf(key, name, data, len)[i] == PrfBlock(key, name, data, i / DIGEST % 256)[i % DIGEST]
  {
    hide PrfBlock;
    var k, n := i / DIGEST, (len + DIGEST - 1) / DIGEST;
    assert DIGEST * k <= i < DIGEST * (k + 1) && k + 1 <= n;
    BlocksExtend(key, name, data, k + 1, n);
    var before, block := PrfBlocks(key, name, data, k), PrfBlock(key, name, data, k);
    assert PrfBlocks(key, name, data, n)[i] == PrfBlocks(key, name, data, k + 1)[i] == (before + block)[i];
    CounterWraps(key, name, data, k);
  }

  // ----- the code -----

  /** memset(pad, 0, 64); memcpy(pad, key, |key|); then the loop that XORs a constant into every byte. */
  method XorPad(key: seq<Byte>, value: Byte) returns (pad: array<Byte>)
    requires |key| <= 64
    ensures fresh(pad) && pad[..] == XorAll(key + Zeros(64 - |key|), value)
  {
    pad := new Byte[64](i => 0);
    forall k | 0 <= k < |key| {
      pad[k] := key[k];
    }
    ghost var filled := key + Zeros(64 - |key|);
    assert pad[..] == filled;
    for i := 0 to 64
      invariant forall k :: 0 <= k < i ==> pad[k] == filled[k] ^ value
      invariant forall k :: i <= k < 64 ==> pad[k] == filled[k]
    {
      pad[i] := pad[i] ^ value;
    }
  }

  /** The first step of HMACInit and of hmac_sha1_vector: a key longer than a block is replaced by its digest. */
  method ShortKey(key: seq<Byte>, bigEndian: bool) returns (short: seq<Byte>)
    requires |key| < TWO_32
    ensures |short| <= 64 && short + Zeros(64 - |short|) == PadKey(key)
  {
    hide Digest;
    short := key;
    if |key| > 64 {
      var ctx := new Context(bigEndian);
      ctx.Update(key);
      assert ctx.message == key;
      short := ctx.Final();
    }
  }

  /** The second hash of an HMAC: the outer pad followed by the inner digest. */
  method Outer(key: seq<Byte>, inner: seq<Byte>, bigEndian: bool) returns (mac: seq<Byte>)
    requires |key| <= 64 && |inner| == DIGEST
    ensures mac == Digest(XorAll(key + Zeros(64 - |key|), 0x5c) + inner)
  {
    hide Digest;
    var opad := XorPad(key, 0x5c);
    var ctx := new Context(bigEndian);
    ctx.Update(opad[..]);
    ctx.Update(inner);
    assert ctx.message == opad[..] + inner;
    mac := ctx.Final();
  }

  /** HMAC_CTX. `secret` is the key given to Init and `text` everything given to Update since. */
  class HmacContext {
    const context: Context
    const key: array<Byte>
    var keyLen: nat
    ghost var secret: seq<Byte>
    ghost var text: seq<Byte>

    ghost predicate Valid()
      reads this, context, context.state, context.buffer, key
    {
      && key.Length == 64 && key != context.buffer
      && context.Valid()
      && keyLen <= 64 && key[..keyLen] + Zeros(64 - keyLen) == PadKey(secret)
      && context.message == XorAll(PadKey(secret), 0x36) + text
    }

    /** HMACInit. */
    constructor (key: seq<Byte>, bigEndian: bool)
      requires |key| < TWO_32
      ensures Valid() && secret == key && text == []
      ensures fresh(context) && fresh(context.state) && fresh(context.buffer) && fresh(this.key)
    {
      hide Digest, Absorb, PadKey, XorAll;
      var short := ShortKey(key, bigEndian);
      var stored := new Byte[64];
      forall k | 0 <= k < |short| {
        stored[k] := short[k];
      }
      var ipad := XorPad(short, 0x36);
      var ctx := new Context(bigEndian);
      ctx.Update(ipad[..]);
      context, this.key, keyLen := ctx, stored, |short|;
      secret, text := key, [];
      new;
      assert this.key[..keyLen] == short;
      assert context.message == XorAll(PadKey(secret), 0x36) + text;
    }

    /** HMACUpdate. */
    method Update(data: seq<Byte>)
      requires Valid() && |context.message| % 64 + |data| < TWO_32
      modifies this, context, context.state, context.buffer
      ensures Valid() && secret == old(secret) && text == old(text) + data
    {
      hide Digest, Absorb, PadKey, XorAll, CountIs, Holds;
      context.Update(data);
      text := text + data;
      assert context.message == XorAll(PadKey(secret), 0x36) + text;
    }

    /** HMACFinal. */
    method Final() returns (digest: seq<Byte>)
      requires Valid()
      modifies context, context.state, context.buffer
      ensures digest == HmacOf(secret, text)
    {
      hide Digest, Absorb, PadKey, XorAll, CountIs, Holds;
      var inner := context.Final();
      digest := Outer(key[..keyLen], inner, context.bigEndian);
    }
  }

  /** hmac_sha1_vector. */
  method HmacVector(key: seq<Byte>, pieces: seq<seq<Byte>>, bigEndian: bool) returns (mac: seq<Byte>)
    requires |key| < TWO_32
    requires forall i :: 0 <= i < |pieces| ==> |pieces[i]| <= TWO_32 - 64
    ensures mac == HmacOf(key, Flatten(pieces))
  {
    hide Digest, Absorb, PadKey, XorAll, CountIs, Holds;
    var short := ShortKey(key, bigEndian);
    var ipad := XorPad(short, 0x36);
    var ctx := new Context(bigEndian);
    ctx.Update(ipad[..]);
    for i := 0 to |pieces|
      invariant ctx.Valid() && fresh(ctx.state) && fresh(ctx.buffer)
      invariant ctx.message + Flatten(pieces[i..]) == XorAll(PadKey(key), 0x36) + Flatten(pieces)
    {
      assert pieces[i..][1..] == pieces[i + 1..];
      ctx.Update(pieces[i]);
    }
    assert ctx.message == XorAll(PadKey(key), 0x36) + Flatten(pieces);
    var inner := ctx.Final();
    mac := Outer(short, inner, bigEndian);
  }

  lemma FlattenThree(a: seq<Byte>, b: seq<Byte>, c: seq<Byte>)
    ensures Flatten([a, b, c]) == a + b + c
  {
    assert [a, b, c][1..] == [b, c] && [b, c][1..] == [c] && [c][1..] == [];
    assert Flatten([c]) == c;
    assert Flatten([b, c]) == b + c;
  }

  /** One turn of the loop of sha1_prf: the block for the counter. */
  method OneBlock(key: seq<Byte>, name: seq<Byte>, data: seq<Byte>, counter: nat, ghost k: nat, bigEndian: bool)
    returns (hash: seq<Byte>)
    requires |key| < TWO_32 && |name| + 1 <= TWO_32 - 64 && |data| <= TWO_32 - 64 && counter == k % 256
    ensures hash == PrfBlock(key, name, data, k) && |hash| == DIGEST
    ensures PrfBlocks(key, name, data, k + 1) == PrfBlocks(key, name, data, k) + hash
  {
    hide HmacOf, Flatten, PrfBlock, PrfBlocks;
    hash := HmacVector(key, [name + [0], data, [counter as Byte]], bigEndian);
    NextBlock(key, name, data, counter, k);
  }

  /** sha1_prf; `buf.Length` is the number of bytes to generate. */
  method PrfInto(key: seq<Byte>, name: seq<Byte>, data: seq<Byte>, buf: array<Byte>, bigEndian: bool)
    requires |key| < TWO_32 && |name| + 1 <= TWO_32 - 64 && |data| <= TWO_32 - 64
    modifies buf
    ensures buf[..] == Prf(key, name, data, buf.Length)
  {
    hide HmacOf, Flatten, PrfBlock, PrfBlocks, Prf;
    var counter: nat := 0;
    var pos: nat := 0;
    ghost var k: nat := 0;
    EmptyPrf(key, name, data);
    while pos < buf.Length
      invariant pos <= buf.Length && pos == DIGEST * k && counter == k % 256
      invariant buf[..pos] == PrfBlocks(key, name, data, k)
      decreases buf.Length - pos
    {
      var plen := buf.Length - pos;
      var hash := OneBlock(key, name, data, counter, k, bigEndian);
      if plen >= DIGEST {
        Store(buf, pos, hash);
        pos := pos + DIGEST;
      } else {
        Store(buf, pos, hash[..plen]);
        LastBlock(key, name, data, k, plen);
        return;
      }
      counter := (counter + 1) % 256;
      k := k + 1;
    }
    LastBlock(key, name, data, k, 0);
    assert buf[..] == buf[..pos];
  }

  /** memcpy(&buf[pos], bytes, |bytes|). */
  method Store(buf: array<Byte>, pos: nat, bytes: seq<Byte>)
    requires pos + |bytes| <= buf.Length
    modifies buf
    ensures buf[..] == old(buf[..pos]) + bytes + old(buf[pos + |bytes|..])
    ensures buf[..pos + |bytes|] == old(buf[..pos]) + bytes
  {
    forall j | 0 <= j < |bytes| {
      buf[pos + j] := bytes[j];
    }
  }

  lemma EmptyPrf(key: seq<Byte>, name: seq<Byte>, data: seq<Byte>)
    ensures PrfBlocks(key, name, data, 0) == []
  {
  }

  lemma NextBlock(key: seq<Byte>, name: seq<Byte>, data: seq<Byte>, counter: nat, k: nat)
    requires counter == k % 256
    ensures HmacOf(key, Flatten([name + [0], data, [counter as Byte]])) == PrfBlock(key, name, data, k)
    ensures PrfBlocks(key, name, data, k + 1) == PrfBlocks(key, name, data, k) + PrfBlock(key, name, data, k)
  {
    hide HmacOf, Flatten;
    FlattenThree(name + [0], data, [counter as Byte]);
  }

  /** The number of blocks for a length: rounded up. */
  lemma BlocksFor(k: nat, plen: nat)
    requires plen < DIGEST
    ensures (DIGEST * k + plen + DIGEST - 1) / DIGEST == if plen == 0 then k else k + 1
  {
    assert (20 * k + plen + 19) / 20 == if plen == 0 then k else k + 1;
  }

  lemma LastBlock(key: seq<Byte>, name: seq<Byte>, data: seq<Byte>, k: nat, plen: nat)
    requires plen < DIGEST
    ensures Prf(key, name, data, DIGEST * k + plen)
         == (PrfBlocks(key, name, data, k) + PrfBlock(key, name, data, k))[..DIGEST * k + plen]
    ensures plen == 0 ==> Prf(key, name, data, DIGEST * k) == PrfBlocks(key, name, data, k)
  {
    hide PrfBlock, PrfBlocks, Prf;
    BlocksFor(k, plen);
    PrfIs(key, name, data, DIGEST * k + plen);
    BlocksStep(key, name, data, k);
    if plen == 0 {
      TakeAll(PrfBlocks(key, name, data, k), PrfBlock(key, name, data, k), DIGEST * k);
    }
  }

  lemma PrfIs(key: seq<Byte>, name: seq<Byte>, data: seq<Byte>, len: nat)
    ensures Prf(key, name, data, len) == PrfBlocks(key, name, data, (len + DIGEST - 1) / DIGEST)[..len]
  {
    hide PrfBlocks;
  }

  lemma BlocksStep(key: seq<Byte>, name: seq<Byte>, data: seq<Byte>, k: nat)
    ensures PrfBlocks(key, name, data, k + 1) == PrfBlocks(key, name, data, k) + PrfBlock(key, name, data, k)
    ensures |PrfBlocks(key, name, data, k)| == DIGEST * k
  {
    hide PrfBlock;
  }

  lemma TakeAll(a: seq<Byte>, b: seq<Byte>, n: nat)
    requires n == |a|
    ensures (a + b)[..n] == a && a[..n] == a
  {
  }
}
