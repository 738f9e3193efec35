/** The MD5 context: md5_init, md5_update and md5_final. */
module Md5Context {
  import opened Buffers
  import opened Bytes
  import opened Md5
  import opened Md5Rounds
  import opened Md5Transform

  class Context {
    var clow: ulong
    var chigh: ulong
    const state: array<ulong>
    const buf: array<byte>
    var ptr: nat
    ghost var fed: seq<byte>       // everything given to md5_update so far

    /** The state as 32-bit words would hold it. */
    ghost function Low4(): Words
      requires state.Length == 4
      reads state
    {
      LowWords(state[0], state[1], state[2], state[3])
    }

    ghost predicate Shape() {
      state.Length == 4 && buf.Length == BLOCK && (state as object) != (buf as object)
    }

    /** The state and the buffer hold g. */
    ghost predicate Holds(g: seq<byte>)
      reads this`ptr, state, buf
    {
      Shape() && ptr < BLOCK && Low4() == Folded(g, IV) && buf[..ptr] == Tail(g)
    }

    ghost predicate Valid()
      reads this, state, buf
    {
      Holds(fed) && clow == |fed| % W64 && chigh == |fed| / W64 % W64
    }

    /** md5_init */
    constructor ()
      ensures Valid() && fed == [] && fresh(state) && fresh(buf)
    {
      clow, chigh, ptr, fed := 0, 0, 0, [];
      var s: array<ulong> := new ulong[4];
      var b: array<byte> := new byte[BLOCK];
      s[0], s[1], s[2], s[3] := 0x67452301, 0xefcdab89, 0x98badcfe, 0x10325476;
      state, buf := s, b;
    }

    /** The buffer filled to the end and transformed. */
    method TransformBuffer(ghost g: seq<byte>, ghost chunk: seq<byte>)
      requires Shape() && Low4() == Folded(g, IV)
      requires buf[..] == Tail(g) + chunk
      modifies this`ptr, state
      ensures Holds(g + chunk) && ptr == 0
    {
      hide Transformed, WordsOf, Folded, Tail;
      FoldedAppend(g, chunk, IV);
      FoldedBlock(buf[..], Folded(g, IV));
      Transform(state, buf);
      ptr := 0;
    }

    /** One round of the loop: the buffer filled up with chunk, and transformed. */
    method FillBuffer(ghost g: seq<byte>, chunk: seq<byte>)
      requires Holds(g) && |chunk| == BLOCK - ptr
      modifies this`ptr, state, buf
      ensures Holds(g + chunk) && ptr == 0
    {
      hide Transformed, WordsOf, Folded, Tail;
      var end := Emit(buf, ptr, chunk);
      assert buf[..] == buf[..end];
      TransformBuffer(g, chunk);
    }

    /** The loop of md5_update: whole buffers from data. */
    method UpdateBlocks(data: seq<byte>) returns (p: nat)
      requires Holds(fed)
      modifies this`ptr, state, buf
      ensures p <= |data| < p + BLOCK - ptr && Holds(fed + data[..p])
    {
      hide Transformed, WordsOf, Folded, Tail;
      p := 0;
      assert fed + data[..0] == fed;
      var i := BLOCK - ptr;
      while i <= |data| - p
        invariant p <= |data| && Holds(fed + data[..p]) && i == BLOCK - ptr
        decreases |data| - p
      {
        assert fed + data[..p] + data[p..p + i] == fed + data[..p + i];
        FillBuffer(fed + data[..p], data[p..p + i]);
        p := p + i;
        i := BLOCK;
      }
    }

    /** The final bit of data copied into the buffer. */
    method CopyRest(ghost g: seq<byte>, rest: seq<byte>)
      requires Holds(g) && ptr + |rest| < BLOCK
      modifies this`ptr, buf
      ensures Holds(g + rest)
    {
      hide Transformed, WordsOf, Folded, Tail;
      TailExtends(g, rest, ptr);
      FoldedExtends(g, rest);
      ptr := Emit(buf, ptr, rest);
    }

    /** md5_update */
    method Update(data: seq<byte>)
      requires Valid() && |data| < W64
      modifies this, state, buf
      ensures Valid() && fed == old(fed) + data
    {
      hide Holds, Plus, Folded, Tail;
      var len := |data|;
      CountCarries(clow, chigh, |fed|, len);
      clow := Plus(clow, len);
      if clow < len {
        chigh := Plus(chigh, 1);
      }
      var p := UpdateBlocks(data);
      assert fed + data[..p] + data[p..] == fed + data;
      CopyRest(fed + data[..p], data[p..]);
      fed := fed + data;
    }

    /** Clear i bytes of the buffer. */
    method ClearFrom(from: nat, i: nat)
      requires Shape() && from + i <= BLOCK
      modifies buf
      ensures buf[..from + i] == old(buf[..from]) + Zeros(i)
    {
      var _ := Emit(buf, from, Zeros(i));
    }

    /** md5_encode of the length at ptr, and the last transformation. */
    method PutLength(low: ulong, high: ulong)
      requires Shape() && ptr == BLOCK - 8
      modifies state, buf
      ensures Low4() == Transformed(old(Low4()), WordsOf(old(buf[..ptr]) + (BytesOf(low) + BytesOf(high))))
    {
      hide Transformed, WordsOf, BytesOf;
      ghost var was := buf[..ptr];
      var d := Emit(buf, ptr, Encoded(low));
      d := Emit(buf, d, Encoded(high));
      assert buf[..] == buf[..d];
      assert was + BytesOf(low) + BytesOf(high) == was + (BytesOf(low) + BytesOf(high));
      Transform(state, buf);
    }

    /** The padding byte, and zeros up to the last eight bytes of a block. */
    method Pad()
      requires Holds(fed)
      modifies this`ptr, state, buf
      ensures Shape() && ptr == BLOCK - 8
      ensures var t := Tail(fed);
              && (|t| + 9 <= BLOCK ==> buf[..ptr] == Filled(t, 56) && Low4() == Folded(fed, IV))
              && (|t| + 9 > BLOCK ==>
                  && buf[..ptr] == Zeros(56)
                  && Low4() == Transformed(Folded(fed, IV), WordsOf(Filled(t, BLOCK))))
    {
      hide Transformed, WordsOf, Folded;
      ptr := Emit(buf, ptr, [128]);
      var i := BLOCK - ptr;
      if i < 8 {
        ClearFrom(ptr, i);
        assert buf[..] == buf[..BLOCK];
        Transform(state, buf);
        ClearFrom(0, BLOCK - 8);
        ptr := BLOCK - 8;
        assert buf[..ptr] == Zeros(56);
      } else {
        i := i - 8;
        if i > 0 {
          ClearFrom(ptr, i);
          ptr := ptr + i;
        }
      }
    }

    /** md5_final: the digest of everything given to md5_update, as long as the count words stand for its length;
        the context is erased. */
    method Final(digest: array<byte>)
      requires Valid() && digest.Length == 16 && digest != buf && (digest as object) != (state as object)
      modifies this, state, buf, digest
      ensures digest[..] == DigestWith(old(fed), CountBytes(|old(fed)|))
      ensures |old(fed)| / W64 % 0x2000_0000 == 0 ==> digest[..] == Digest(old(fed))
      ensures Erased()
    {
      hide Transformed, WordsOf, Folded, Tail, Padding, LengthBytes;
      var low, high := ShiftLeft(clow, 3), Plus(ShiftLeft(chigh, 3), ShiftRight(clow, 29));
      ghost var (w, t, n) := (Folded(fed, IV), Tail(fed), |fed|);
      CountInBits(n);
      Pad();
      PutLength(low, high);
      FoldedEnd(t, n, CountBytes(n), w);
      FoldedExtends(fed, Padding(n, CountBytes(n)));
      PutDigest(digest);
      Erase();
    }

    ghost predicate Erased()
      reads this, state, buf
    {
      && Shape() && clow == 0 && chigh == 0
      && (forall k :: 0 <= k < 4 ==> state[k] == 0)
      && (forall k :: 0 <= k < BLOCK ==> buf[k] == 0)
    }

    /** Nothing of the message is left in the context. */
    method Erase()
      requires Shape()
      modifies this, state, buf
      ensures Erased() && fed == old(fed)
    {
      clow, chigh, ptr := 0, 0, 0;
      state[0], state[1], state[2], state[3] := 0, 0, 0, 0;
      ClearFrom(0, BLOCK);
      assert buf[..BLOCK] == Zeros(BLOCK);
      assert forall k :: 0 <= k < BLOCK ==> buf[k] == buf[..BLOCK][k];
    }

    method PutDigest(digest: array<byte>)
      requires Shape() && digest.Length == 16
      modifies digest
      ensures digest[..] == DigestBytes(Low4())
    {
      var d := Emit(digest, 0, Encoded(state[0]));
      d := Emit(digest, d, Encoded(state[1]));
      d := Emit(digest, d, Encoded(state[2]));
      d := Emit(digest, d, Encoded(state[3]));
      assert digest[..] == digest[..d];
      BytesOfLow(state[0]);
      BytesOfLow(state[1]);
      BytesOfLow(state[2]);
      BytesOfLow(state[3]);
    }
  }

  /** The two words count modulo 2 to the 128. */
  lemma CountCarries(clow: ulong, chigh: ulong, n: nat, len: nat)
    requires clow == n % W64 && chigh == n / W64 % W64 && len < W64
    ensures Plus(clow, len) == (n + len) % W64
    ensures (if Plus(clow, len) < len then Plus(chigh, 1) else chigh) == (n + len) / W64 % W64
  {
    var hi := n / W64;
    assert n == hi * W64 + clow;
    if clow + len < W64 {
      assert n + len == hi * W64 + (clow + len);
    } else {
      assert n + len == (hi + 1) * W64 + (clow + len - W64);
    }
  }

  lemma {:induction false} TailExtends(g: seq<byte>, more: seq<byte>, ptr: nat)
    requires ptr == |Tail(g)| && ptr + |more| < BLOCK
    ensures Tail(g + more) == Tail(g) + more
  {
  }

  lemma {:induction false} FoldedExtends(g: seq<byte>, more: seq<byte>)
    ensures Folded(g + more, IV) == Folded(Tail(g) + more, Folded(g, IV))
    ensures |Tail(g)| + |more| < BLOCK ==> Folded(g + more, IV) == Folded(g, IV)
  {
    FoldedAppend(g, more, IV);
  }

  function Flat(pieces: seq<seq<byte>>): seq<byte> {
    if pieces == [] then [] else Flat(pieces[..|pieces| - 1]) + pieces[|pieces| - 1]
  }

  /** However a message is cut into pieces, the digest is that of the whole message. */
  method DigestOfPieces(pieces: seq<seq<byte>>) returns (digest: array<byte>)
    requires forall k :: 0 <= k < |pieces| ==> |pieces[k]| < W64
    ensures digest.Length == 16 && digest[..] == DigestWith(Flat(pieces), CountBytes(|Flat(pieces)|))
    ensures |Flat(pieces)| / W64 % 0x2000_0000 == 0 ==> digest[..] == Digest(Flat(pieces))
  {
    hide Digest, DigestWith, CountBytes;
    var ctx := new Context();
    digest := new byte[16];
    for k := 0 to |pieces|
      invariant ctx.Valid() && ctx.fed == Flat(pieces[..k])
      invariant fresh(ctx) && fresh(ctx.state) && fresh(ctx.buf)
    {
      assert pieces[..k + 1][..k] == pieces[..k];
      ctx.Update(pieces[k]);
    }
    assert pieces[..|pieces|] == pieces;
    ctx.Final(digest);
  }
}
