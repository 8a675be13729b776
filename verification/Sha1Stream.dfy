/**
 The file digest of xsha1.c: sha1_buffer, and the loop of sha1_stream that fills
 blocks of 32768 bytes from reads of any size and tells a read error from the end
 of the file.
 */
module Sha1Stream {
  import opened Sha1Spec
  import opened Sha1

  const BLOCKSIZE: nat := 32768

  /**
   A stdio stream as fread, feof and ferror show it. `chunks` is what single reads would
   still deliver, `failing` says whether an error or the end of the file follows them, and
   `eager` whether the end is flagged with the last bytes or only by the read after them.
   */
  class Stream {
    var chunks: seq<seq<Byte>>
    const failing: bool
    const eager: bool
    var eof: bool
    var error: bool

    ghost predicate Valid()
      reads this
    {
      && (forall k :: 0 <= k < |chunks| ==> chunks[k] != [])
      && (eof ==> chunks == [] && !failing)
      && (error ==> chunks == [] && failing)
    }

    constructor (chunks: seq<seq<Byte>>, failing: bool, eager: bool)
      requires forall k :: 0 <= k < |chunks| ==> chunks[k] != []
      ensures Valid() && this.chunks == chunks && this.failing == failing
    {
      this.chunks, this.failing, this.eager := chunks, failing, eager;
      eof, error := false, false;
    }

    /** fread of at most `n` bytes. */
    method Fread(n: nat) returns (bytes: seq<Byte>)
      requires Valid() && n > 0
      modifies this
      ensures Valid() && |bytes| <= n
      ensures old(Flatten(chunks)) == bytes + Flatten(chunks)
      ensures bytes == [] ==> chunks == [] && error == failing
    {
      if chunks == [] {
        eof, error := !failing, failing;
        return [];
      }
      var next := chunks[0];
      if |next| <= n {
        bytes := next;
        chunks := chunks[1..];
      } else {
        bytes := next[..n];
        chunks := [next[n..]] + chunks[1..];
        assert bytes + next[n..] == next;
      }
      eof := eager && !failing && chunks == [];
    }
  }

  /** sha1_buffer. */
  method BufferDigest(buffer: seq<Byte>, bigEndian: bool) returns (resblock: seq<Byte>)
    requires |buffer| < TWO_32
    ensures resblock == Digest(buffer)
  {
    hide Digest, Absorb, CountIs, Holds;
    var ctx := new Context(bigEndian);
    ctx.Update(buffer);
    assert ctx.message == buffer;
    resblock := ctx.Final();
  }

  /** The inner loop of sha1_stream: one block, and why reading stopped. */
  datatype Fill = Full | End | Failed

  method FillBlock(stream: Stream) returns (block: seq<Byte>, why: Fill)
    requires stream.Valid()
    modifies stream
    ensures stream.Valid() && |block| <= BLOCKSIZE
    ensures old(Flatten(stream.chunks)) == block + Flatten(stream.chunks)
    ensures why == Full ==> |block| == BLOCKSIZE
    ensures why == End ==> stream.chunks == [] && !stream.failing
    ensures why == Failed ==> stream.failing
  {
    block := [];
    while true
      invariant stream.Valid() && |block| < BLOCKSIZE
      invariant old(Flatten(stream.chunks)) == block + Flatten(stream.chunks)
      decreases BLOCKSIZE - |block|
    {
      var bytes := stream.Fread(BLOCKSIZE - |block|);
      block := block + bytes;
      if |block| == BLOCKSIZE {
        return block, Full;
      }
      if |bytes| == 0 {
        if stream.error {
          return block, Failed;
        }
        return block, End;
      }
      if stream.eof {
        return block, End;
      }
    }
  }

  /** sha1_stream: the digest of the whole content however it is read, or nothing if reading failed. */
  method StreamDigest(stream: Stream, bigEndian: bool) returns (ok: bool, resblock: seq<Byte>)
    requires stream.Valid()
    modifies stream
    ensures ok == !stream.failing
    ensures ok ==> resblock == Digest(old(Flatten(stream.chunks)))
  {
    hide Digest, Absorb, CountIs, Holds, Flatten;
    resblock := [];
    var ctx := new Context(bigEndian);
    var block, why := FillBlock(stream);
    while why == Full
      invariant stream.Valid() && ctx.Valid() && fresh(ctx) && fresh(ctx.state) && fresh(ctx.buffer)
      invariant |block| <= BLOCKSIZE
      invariant ctx.message + block + Flatten(stream.chunks) == old(Flatten(stream.chunks))
      invariant why == Full ==> |block| == BLOCKSIZE
      invariant why == End ==> stream.chunks == [] && !stream.failing
      invariant why == Failed ==> stream.failing
      decreases |Flatten(stream.chunks)|, why == Full
    {
      ctx.Update(block);
      block, why := FillBlock(stream);
    }
    if why == Failed {
      return false, [];
    }
    if |block| > 0 {
      ctx.Update(block);
    }
    EmptyRest();
    assert ctx.message == old(Flatten(stream.chunks));
    resblock := ctx.Final();
    ok := true;
  }

  lemma EmptyRest()
    ensures Flatten([]) == []
  {
  }
}
