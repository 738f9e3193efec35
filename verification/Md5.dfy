/** MD5 in pieces: md5_init, md5_update and md5_final against the digest of section 3 of RFC 1321, on a
    machine whose unsigned long has 64 bits. */
module Md5 {
  import opened Bits
  import opened Bytes
  import opened Md5Rounds
  import opened Md5Transform

  // ----- the digest of a whole message -----

  const IV: Words := Words(0x67452301, 0xefcdab89, 0x98badcfe, 0x10325476)

  /** The state after the full blocks of s. */
  ghost function Folded(s: seq<byte>, w: Words): Words
    decreases |s|
  {
    if |s| < BLOCK then w else Folded(s[BLOCK..], Transformed(w, WordsOf(s[..BLOCK])))
  }

  function Zeros(n: nat): (s: seq<byte>)
    ensures |s| == n
  {
    seq(n, i => 0)
  }

  /** A length as eight bytes, low-order byte first, modulo 2 to the 64. */
  function LengthBytes(bits: nat): (s: seq<byte>)
    ensures |s| == 8
  {
    var n := bits % W64;
    BytesOf(n % W32) + BytesOf(n / W32)
  }

  /** How many zeros follow the padding byte: the length is to end a block. */
  function Zeroes(n: nat): nat {
    (55 - n) % BLOCK
  }

  /** Sections 3.1 and 3.2: a single one bit, zeros, and eight bytes for the length in bits. */
  function Padding(n: nat, length: seq<byte>): seq<byte> {
    [128] + Zeros(Zeroes(n)) + length
  }

  function DigestBytes(w: Words): seq<byte> {
    BytesOf(w.a) + BytesOf(w.b) + BytesOf(w.c) + BytesOf(w.d)
  }

  ghost function DigestWith(m: seq<byte>, length: seq<byte>): seq<byte> {
    DigestBytes(Folded(m + Padding(|m|, length), IV))
  }

  ghost function Digest(m: seq<byte>): seq<byte> {
    DigestWith(m, LengthBytes(8 * |m|))
  }

  lemma ZeroesFill(n: nat)
    ensures Zeroes(n) < BLOCK && (n + 9 + Zeroes(n)) % BLOCK == 0
  {
    assert n + 9 + Zeroes(n) == BLOCK * (1 - (55 - n) / BLOCK);
  }

  /** The padded message is a whole number of blocks, and no shorter padding would do. */
  lemma {:induction false} PaddedToBlocks(m: seq<byte>)
    ensures var pad := Padding(|m|, LengthBytes(8 * |m|)); |m + pad| % BLOCK == 0 && |pad| < 9 + BLOCK
  {
    hide Zeroes, LengthBytes;
    ZeroesFill(|m|);
    assert |Padding(|m|, LengthBytes(8 * |m|))| == 9 + Zeroes(|m|);
  }

  /** The part of s that fills no block. */
  function Tail(s: seq<byte>): (t: seq<byte>)
    ensures |t| == |s| % BLOCK
  {
    s[|s| - |s| % BLOCK..]
  }

  lemma {:induction false} TailAfterBlock(s: seq<byte>)
    requires |s| >= BLOCK
    ensures Tail(s) == Tail(s[BLOCK..])
  {
  }

  lemma {:induction false} BlockFirst(s: seq<byte>, t: seq<byte>)
    requires |s| >= BLOCK
    ensures (s + t)[..BLOCK] == s[..BLOCK] && (s + t)[BLOCK..] == s[BLOCK..] + t
  {
  }

  lemma {:induction false} TailAppend(s: seq<byte>, t: seq<byte>)
    ensures Tail(s + t) == Tail(Tail(s) + t)
    decreases |s|
  {
    if |s| < BLOCK {
      assert Tail(s) == s;
    } else {
      hide Tail;
      BlockFirst(s, t);
      TailAfterBlock(s);
      TailAfterBlock(s + t);
      TailAppend(s[BLOCK..], t);
    }
  }

  /** Blocks first, the rest afterwards. */
  lemma {:induction false} FoldedAppend(s: seq<byte>, t: seq<byte>, w: Words)
    ensures Folded(s + t, w) == Folded(Tail(s) + t, Folded(s, w))
    ensures Tail(s + t) == Tail(Tail(s) + t)
    decreases |s|
  {
    hide Transformed, WordsOf;
    TailAppend(s, t);
    if |s| < BLOCK {
      assert Tail(s) == s;
    } else {
      hide Tail;
      BlockFirst(s, t);
      TailAfterBlock(s);
      FoldedAppend(s[BLOCK..], t, Transformed(w, WordsOf(s[..BLOCK])));
    }
  }

  /** A buffer just filled. */
  lemma {:induction false} FoldedBlock(s: seq<byte>, w: Words)
    requires |s| == BLOCK
    ensures Folded(s, w) == Transformed(w, WordsOf(s)) && Tail(s) == []
  {
    hide Transformed, WordsOf;
    assert s[..BLOCK] == s;
    assert |s[BLOCK..]| < BLOCK;
  }

  /** The last part of a message with the padding byte, filled up with zeros. */
  function Filled(t: seq<byte>, size: nat): (s: seq<byte>)
    requires |t| < size
    ensures |s| == size
  {
    t + [128] + Zeros(size - 1 - |t|)
  }

  /** The last part of a message with its padding: one block, or two when the length does not fit. */
  lemma {:induction false} FoldedEnd(t: seq<byte>, n: nat, length: seq<byte>, w: Words)
    requires |t| == n % BLOCK && |length| == 8
    ensures Folded(t + Padding(n, length), w)
            == if |t| + 9 <= BLOCK then Transformed(w, WordsOf(Filled(t, 56) + length))
               else Transformed(Transformed(w, WordsOf(Filled(t, BLOCK))), WordsOf(Zeros(56) + length))
  {
    hide Transformed, WordsOf;
    var p := |t|;
    if p + 9 <= BLOCK {
      assert Zeroes(n) == 55 - p;
      assert t + Padding(n, length) == Filled(t, 56) + length;
      FoldedBlock(Filled(t, 56) + length, w);
    } else {
      assert Zeroes(n) == 119 - p;
      var (x, y) := (Filled(t, BLOCK), Zeros(56) + length);
      assert t + Padding(n, length) == x + y;
      FoldedAppend(x, y, w);
      FoldedBlock(x, w);
      assert [] + y == y;
      FoldedBlock(y, Transformed(w, WordsOf(x)));
    }
  }

  // ----- the context -----

  lemma {:induction false} DownByte(w: nat, k: nat)
    ensures ShiftDown(w, k + 8) == ShiftDown(w / 256, k)
  {
    assert ShiftDown(w, k + 8) == ShiftDown(w / 2 / 2, k + 6);
    assert ShiftDown(w / 2 / 2, k + 6) == ShiftDown(w / 2 / 2 / 2 / 2, k + 4);
    assert ShiftDown(w / 2 / 2 / 2 / 2, k + 4) == ShiftDown(w / 2 / 2 / 2 / 2 / 2 / 2, k + 2);
    assert ShiftDown(w / 2 / 2 / 2 / 2 / 2 / 2, k + 2) == ShiftDown(w / 2 / 2 / 2 / 2 / 2 / 2 / 2 / 2, k);
    assert w / 2 / 2 / 2 / 2 / 2 / 2 / 2 / 2 == w / 256;
  }

  lemma {:induction false} DownBytes(w: nat)
    ensures ShiftDown(w, 8) == w / 256
    ensures ShiftDown(w, 16) == w / 65536
    ensures ShiftDown(w, 24) == w / 16777216
  {
    DownByte(w, 0);
    DownByte(w, 8);
    DownByte(w / 256, 0);
    DownByte(w, 16);
    DownByte(w / 256, 8);
    DownByte(w / 256 / 256, 0);
  }

  lemma {:induction false} LowByte(w: nat)
    ensures And(w, 0xff) == w % 256
  {
    EightMore(0);
    Mask(w, 8);
  }

  /** md5_encode of one word. */
  function Encoded(w: nat): (s: seq<byte>)
    ensures s == BytesOf(w)
  {
    LowByte(w);
    LowByte(ShiftDown(w, 8));
    LowByte(ShiftDown(w, 16));
    LowByte(ShiftDown(w, 24));
    DownBytes(w);
    [And(w, 0xff), And(ShiftDown(w, 8), 0xff), And(ShiftDown(w, 16), 0xff), And(ShiftDown(w, 24), 0xff)]
  }

  /** Only the low 32 bits are encoded. */
  lemma {:induction false} BytesOfLow(w: nat)
    ensures BytesOf(w) == BytesOf(Low(w))
  {
    var (v, k) := (Low(w), w / W32);
    assert w == v + 256 * (16777216 * k) && w == v + 65536 * (65536 * k) && w == v + 16777216 * (256 * k);
    DivPlus(v, 16777216 * k, 256);
    DivPlus(v, 65536 * k, 65536);
    DivPlus(v, 256 * k, 16777216);
    Mod256(v, 16777216 * k);
    Mod256(v / 256, 65536 * k);
    Mod256(v / 65536, 256 * k);
    Mod256(v / 16777216, k);
  }

  lemma DivPlus(v: nat, c: nat, unit: nat)
    requires unit == 256 || unit == 65536 || unit == 16777216
    ensures (v + unit * c) / unit == v / unit + c
  {
  }

  lemma Mod256(q: nat, j: nat)
    ensures (q + 256 * j) % 256 == q % 256
  {
  }

  lemma {:induction false} DownFive(v: nat)
    ensures ShiftDown(v, 5) == v / 32
  {
    assert ShiftDown(v, 5) == ShiftDown(v / 2 / 2, 3);
    assert ShiftDown(v / 2 / 2, 3) == ShiftDown(v / 2 / 2 / 2 / 2, 1);
    assert ShiftDown(v / 2 / 2 / 2 / 2, 1) == v / 2 / 2 / 2 / 2 / 2;
  }

  lemma {:induction false} Down29(n: nat)
    ensures ShiftDown(n, 29) == n / 0x2000_0000
  {
    DownByte(n, 21);
    DownByte(n / 256, 13);
    DownByte(n / 256 / 256, 5);
    DownFive(n / 256 / 256 / 256);
  }

  lemma {:induction false} UpThree(n: nat)
    ensures ShiftUp(n, 3) == 8 * n
  {
    assert ShiftUp(n, 1) == 2 * n;
    assert ShiftUp(n, 2) == 4 * n;
  }

  /** The two words md5_final makes of the byte count, whose two halves have 64 bits each. */
  function CountBytes(n: nat): (s: seq<byte>)
    ensures |s| == 8
  {
    var (clow, chigh) := (n % W64, n / W64 % W64);
    BytesOf(ShiftLeft(clow, 3)) + BytesOf(Plus(ShiftLeft(chigh, 3), ShiftRight(clow, 29)))
  }

  lemma BytesValue(w: nat)
    requires w < W32
    ensures var s: seq<int> := BytesOf(w); w == s[0] + 256 * (s[1] + 256 * (s[2] + 256 * s[3]))
  {
    assert w / 256 / 256 == w / 65536 && w / 256 / 256 / 256 == w / 16777216;
  }

  lemma BytesDiffer(v: nat, w: nat)
    requires v < W32 && w < W32 && BytesOf(v) == BytesOf(w)
    ensures v == w
  {
    BytesValue(v);
    BytesValue(w);
    var (s, t) := (BytesOf(v), BytesOf(w));
    assert s[0] == t[0] && s[1] == t[1] && s[2] == t[2] && s[3] == t[3];
  }

  /** The length in bits, by halves. */
  lemma {:induction false} LengthHalves(n: nat)
    ensures 8 * n % W64 % W32 == Low(8 * (n % W64) % W64)
    ensures 8 * n % W64 / W32 == Low(n % W64 / 0x2000_0000)
  {
    var clow := n % W64;
    assert 8 * n % W64 == 8 * clow % W64 by {
      assert 8 * n == W64 * (8 * (n / W64) + 8 * clow / W64) + 8 * clow % W64;
    }
    HighBits(clow);
  }

  lemma {:induction false} HighBits(clow: ulong)
    ensures 8 * clow % W64 / W32 == Low(clow / 0x2000_0000)
  {
    var (bits, q) := (8 * clow % W64, 8 * clow / W64);
    var (h, l) := (bits / W32, bits % W32);
    assert 8 * clow == l + (h + q * W32) * W32;
    ModOfMultiple(l, h + q * W32, W32);
    assert clow / 0x2000_0000 == h + q * W32;
    ModOfMultiple(h, q, W32);
  }

  /** The high word is right when what the high half of the count adds to it lies beyond 32 bits. */
  lemma {:induction false} HighWord(chigh: ulong, x: nat)
    requires x < W64
    ensures Low(Plus(8 * chigh % W64, x)) == Low(x) <==> chigh % 0x2000_0000 == 0
  {
    LowOfWord(8 * chigh);
    LowOfWord(8 * chigh % W64 + x);
    SameLow(8 * chigh % W64, x);
    LowEight(chigh);
  }

  lemma LowOfWord(v: nat)
    ensures Low(v % W64) == Low(v)
  {
    var (q, r) := (v / W64, v % W64);
    assert v == W32 * (W32 * q + r / W32) + r % W32;
  }

  lemma SameLow(a: nat, x: nat)
    ensures Low(a + x) == Low(x) <==> Low(a) == 0
  {
    var (q, r, k) := (a / W32, a % W32, x / W32);
    assert a + x == W32 * (q + k) + (r + x % W32);
  }

  lemma LowEight(c: nat)
    ensures Low(8 * c) == 8 * (c % 0x2000_0000)
  {
    assert 8 * c == W32 * (c / 0x2000_0000) + 8 * (c % 0x2000_0000);
  }

  lemma {:induction false} CountWords(n: nat)
    ensures CountBytes(n) == BytesOf(8 * n % W64 % W32)
                             + BytesOf(Low(Plus(8 * (n / W64 % W64) % W64, n % W64 / 0x2000_0000)))
  {
    hide BytesOf, ShiftUp, ShiftDown, Low, Plus;
    var (clow, chigh) := (n % W64, n / W64 % W64);
    UpThree(clow);
    UpThree(chigh);
    Down29(clow);
    LengthHalves(n);
    BytesOfLow(8 * clow % W64);
    BytesOfLow(Plus(8 * chigh % W64, clow / 0x2000_0000));
  }

  lemma HighHalf(n: nat)
    ensures n / W64 % W64 % 0x2000_0000 == n / W64 % 0x2000_0000
  {
    var hi := n / W64;
    var r := hi % W64;
    assert hi == r % 0x2000_0000 + (0x8_0000_0000 * (hi / W64) + r / 0x2000_0000) * 0x2000_0000;
    ModOfMultiple(r % 0x2000_0000, 0x8_0000_0000 * (hi / W64) + r / 0x2000_0000, 0x2000_0000);
  }

  /** They are the length in bits of every message of less than 2 to the 64 bytes, and of a longer one exactly
      when 2 to the 29 divides the high half of its count. */
  lemma {:induction false} CountInBits(n: nat)
    ensures CountBytes(n) == LengthBytes(8 * n) <==> n / W64 % 0x2000_0000 == 0
  {
    hide BytesOf, Low, Plus, CountBytes;
    var high := Low(Plus(8 * (n / W64 % W64) % W64, n % W64 / 0x2000_0000));
    var (low, right) := (8 * n % W64 % W32, 8 * n % W64 / W32);
    CountWords(n);
    LengthHalves(n);
    HighHalf(n);
    HighWord(n / W64 % W64, n % W64 / 0x2000_0000);
    if BytesOf(high) == BytesOf(right) {
      BytesDiffer(high, right);
    }
    assert (BytesOf(low) + BytesOf(high))[4..] == BytesOf(high);
    assert (BytesOf(low) + BytesOf(right))[4..] == BytesOf(right);
  }

  /** A message of 2 to the 64 bytes is the first for which they are wrong. */
  lemma {:induction false} CountFails()
    ensures CountBytes(W64) != LengthBytes(8 * W64)
    ensures forall n :: 0 <= n < W64 ==> CountBytes(n) == LengthBytes(8 * n)
  {
    hide CountBytes, LengthBytes;
    CountInBits(W64);
    forall n | 0 <= n < W64
      ensures CountBytes(n) == LengthBytes(8 * n)
    {
      CountInBits(n);
    }
  }
}
