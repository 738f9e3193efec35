/** The MD5 transformation of one block: md5_decode, md5_transform and md5_encode against the description
    of sections 3.3 to 3.5 of RFC 1321. */
module Md5Transform {
  import opened Bits
  import opened Bytes
  import opened Md5Rounds

  const BLOCK: nat := 64

  // ----- the description -----

  /** The four words A, B, C, D. */
  datatype Words = Words(a: nat, b: nat, c: nat, d: nat)

  /** The shifts of a round, for every fourth step from j on. */
  function Shift(r: Round, j: nat): (s: nat)
    ensures s < 32
  {
    match r
    case F => if j == 0 then 7 else if j == 1 then 12 else if j == 2 then 17 else 22
    case G => if j == 0 then 5 else if j == 1 then 9 else if j == 2 then 14 else 20
    case H => if j == 0 then 4 else if j == 1 then 11 else if j == 2 then 16 else 23
    case I => if j == 0 then 6 else if j == 1 then 10 else if j == 2 then 15 else 21
  }

  /** The word of the block used in step n of a round. */
  function Index(r: Round, n: nat): (k: nat)
    ensures k < 16
  {
    match r
    case F => n % 16
    case G => (1 + 5 * n) % 16
    case H => (5 + 3 * n) % 16
    case I => 7 * n % 16
  }

  /** The table T: the integer part of 4294967296 times abs(sin(n + 1)). */
  function Sine(n: nat): nat {
    match n
    case 0 => 0xd76aa478
    case 1 => 0xe8c7b756
    case 2 => 0x242070db
    case 3 => 0xc1bdceee
    case 4 => 0xf57c0faf
    case 5 => 0x4787c62a
    case 6 => 0xa8304613
    case 7 => 0xfd469501
    case 8 => 0x698098d8
    case 9 => 0x8b44f7af
    case 10 => 0xffff5bb1
    case 11 => 0x895cd7be
    case 12 => 0x6b901122
    case 13 => 0xfd987193
    case 14 => 0xa679438e
    case 15 => 0x49b40821
    case 16 => 0xf61e2562
    case 17 => 0xc040b340
    case 18 => 0x265e5a51
    case 19 => 0xe9b6c7aa
    case 20 => 0xd62f105d
    case 21 => 0x2441453
    case 22 => 0xd8a1e681
    case 23 => 0xe7d3fbc8
    case 24 => 0x21e1cde6
    case 25 => 0xc33707d6
    case 26 => 0xf4d50d87
    case 27 => 0x455a14ed
    case 28 => 0xa9e3e905
    case 29 => 0xfcefa3f8
    case 30 => 0x676f02d9
    case 31 => 0x8d2a4c8a
    case 32 => 0xfffa3942
    case 33 => 0x8771f681
    case 34 => 0x6d9d6122
    case 35 => 0xfde5380c
    case 36 => 0xa4beea44
    case 37 => 0x4bdecfa9
    case 38 => 0xf6bb4b60
    case 39 => 0xbebfbc70
    case 40 => 0x289b7ec6
    case 41 => 0xeaa127fa
    case 42 => 0xd4ef3085
    case 43 => 0x4881d05
    case 44 => 0xd9d4d039
    case 45 => 0xe6db99e5
    case 46 => 0x1fa27cf8
    case 47 => 0xc4ac5665
    case 48 => 0xf4292244
    case 49 => 0x432aff97
    case 50 => 0xab9423a7
    case 51 => 0xfc93a039
    case 52 => 0x655b59c3
    case 53 => 0x8f0ccc92
    case 54 => 0xffeff47d
    case 55 => 0x85845dd1
    case 56 => 0x6fa87e4f
    case 57 => 0xfe2ce6e0
    case 58 => 0xa3014314
    case 59 => 0x4e0811a1
    case 60 => 0xf7537e82
    case 61 => 0xbd3af235
    case 62 => 0x2ad7d2bb
    case 63 => 0xeb86d391
    case _ => 0
  }

  function RoundNumber(r: Round): nat {
    match r
    case F => 0
    case G => 1
    case H => 2
    case I => 3
  }

  /** Four steps from step n of a round on, each on the next of the four words. */
  function FourSteps(r: Round, w: Words, x: seq<nat>, n: nat): Words
    requires |x| == 16
  {
    var t := 16 * RoundNumber(r) + n;
    var a := Step(r, w.a, w.b, w.c, w.d, x[Index(r, n)], Shift(r, 0), Sine(t));
    var d := Step(r, w.d, a, w.b, w.c, x[Index(r, n + 1)], Shift(r, 1), Sine(t + 1));
    var c := Step(r, w.c, d, a, w.b, x[Index(r, n + 2)], Shift(r, 2), Sine(t + 2));
    var b := Step(r, w.b, c, d, a, x[Index(r, n + 3)], Shift(r, 3), Sine(t + 3));
    Words(a, b, c, d)
  }

  function SixteenSteps(r: Round, w: Words, x: seq<nat>): Words
    requires |x| == 16
  {
    FourSteps(r, FourSteps(r, FourSteps(r, FourSteps(r, w, x, 0), x, 4), x, 8), x, 12)
  }

  /** The block added to the state. */
  function Transformed(w: Words, x: seq<nat>): Words
    requires |x| == 16
  {
    var v := SixteenSteps(I, SixteenSteps(H, SixteenSteps(G, SixteenSteps(F, w, x), x), x), x);
    Words(Low(w.a + v.a), Low(w.b + v.b), Low(w.c + v.c), Low(w.d + v.d))
  }

  /** The i-th word of a block, low-order byte first. */
  function WordAt(s: seq<byte>, i: nat): (w: nat)
    requires 4 * i + 4 <= |s|
    ensures w < W32
  {
    var (p: int, q: int, r: int, t: int) := (s[4 * i], s[4 * i + 1], s[4 * i + 2], s[4 * i + 3]);
    p + 256 * q + 65536 * r + 16777216 * t
  }

  function WordsOf(s: seq<byte>): (x: seq<nat>)
    requires |s| == BLOCK
    ensures |x| == 16
  {
    seq(16, i requires 0 <= i < 16 => WordAt(s, i))
  }

  /** A word as four bytes, low-order byte first. */
  function BytesOf(w: nat): (s: seq<byte>)
    ensures |s| == 4
  {
    [w % 256, w / 256 % 256, w / 65536 % 256, w / 16777216 % 256]
  }

  // ----- the code -----

  /** The words of a long machine, cut down to 32 bits. */
  function LowWords(a: ulong, b: ulong, c: ulong, d: ulong): Words {
    Words(Low(a), Low(b), Low(c), Low(d))
  }

  ghost predicate AreWords(x: seq<ulong>) {
    |x| == 16 && forall i :: 0 <= i < 16 ==> x[i] < W32
  }

  /** Four macros in a row, with the block's words, the shifts and the constants they are given. */
  method Quad(r: Round, x: seq<ulong>, n: nat, a0: ulong, b0: ulong, c0: ulong, d0: ulong,
              k: (nat, nat, nat, nat), s: (nat, nat, nat, nat), t: (ulong, ulong, ulong, ulong))
    returns (a: ulong, b: ulong, c: ulong, d: ulong)
    requires AreWords(x)
    requires k == (Index(r, n), Index(r, n + 1), Index(r, n + 2), Index(r, n + 3))
    requires s == (Shift(r, 0), Shift(r, 1), Shift(r, 2), Shift(r, 3))
    requires var i := 16 * RoundNumber(r) + n; t == (Sine(i), Sine(i + 1), Sine(i + 2), Sine(i + 3))
    requires t.0 < W32 && t.1 < W32 && t.2 < W32 && t.3 < W32
    ensures LowWords(a, b, c, d) == FourSteps(r, LowWords(a0, b0, c0, d0), x, n)
  {
    hide Step, Index, Shift, Sine;
    a := Rnd(r, a0, b0, c0, d0, x[k.0], s.0, t.0);
    d := Rnd(r, d0, a, b0, c0, x[k.1], s.1, t.1);
    c := Rnd(r, c0, d, a, b0, x[k.2], s.2, t.2);
    b := Rnd(r, b0, c, d, a, x[k.3], s.3, t.3);
  }

  method Round1(x: seq<ulong>, a0: ulong, b0: ulong, c0: ulong, d0: ulong)
    returns (a: ulong, b: ulong, c: ulong, d: ulong)
    requires AreWords(x)
    ensures LowWords(a, b, c, d) == SixteenSteps(F, LowWords(a0, b0, c0, d0), x)
  {
    hide Step, FourSteps;
    a, b, c, d := a0, b0, c0, d0;
    a, b, c, d := Quad(F, x, 0, a, b, c, d, (0, 1, 2, 3), (7, 12, 17, 22),
                       (0xd76aa478, 0xe8c7b756, 0x242070db, 0xc1bdceee));
    a, b, c, d := Quad(F, x, 4, a, b, c, d, (4, 5, 6, 7), (7, 12, 17, 22),
                       (0xf57c0faf, 0x4787c62a, 0xa8304613, 0xfd469501));
    a, b, c, d := Quad(F, x, 8, a, b, c, d, (8, 9, 10, 11), (7, 12, 17, 22),
                       (0x698098d8, 0x8b44f7af, 0xffff5bb1, 0x895cd7be));
    a, b, c, d := Quad(F, x, 12, a, b, c, d, (12, 13, 14, 15), (7, 12, 17, 22),
                       (0x6b901122, 0xfd987193, 0xa679438e, 0x49b40821));
  }

  method Round2(x: seq<ulong>, a0: ulong, b0: ulong, c0: ulong, d0: ulong)
    returns (a: ulong, b: ulong, c: ulong, d: ulong)
    requires AreWords(x)
    ensures LowWords(a, b, c, d) == SixteenSteps(G, LowWords(a0, b0, c0, d0), x)
  {
    hide Step, FourSteps;
    a, b, c, d := a0, b0, c0, d0;
    a, b, c, d := Quad(G, x, 0, a, b, c, d, (1, 6, 11, 0), (5, 9, 14, 20),
                       (0xf61e2562, 0xc040b340, 0x265e5a51, 0xe9b6c7aa));
    a, b, c, d := Quad(G, x, 4, a, b, c, d, (5, 10, 15, 4), (5, 9, 14, 20),
                       (0xd62f105d, 0x2441453, 0xd8a1e681, 0xe7d3fbc8));
    a, b, c, d := Quad(G, x, 8, a, b, c, d, (9, 14, 3, 8), (5, 9, 14, 20),
                       (0x21e1cde6, 0xc33707d6, 0xf4d50d87, 0x455a14ed));
    a, b, c, d := Quad(G, x, 12, a, b, c, d, (13, 2, 7, 12), (5, 9, 14, 20),
                       (0xa9e3e905, 0xfcefa3f8, 0x676f02d9, 0x8d2a4c8a));
  }

  method Round3(x: seq<ulong>, a0: ulong, b0: ulong, c0: ulong, d0: ulong)
    returns (a: ulong, b: ulong, c: ulong, d: ulong)
    requires AreWords(x)
    ensures LowWords(a, b, c, d) == SixteenSteps(H, LowWords(a0, b0, c0, d0), x)
  {
    hide Step, FourSteps;
    a, b, c, d := a0, b0, c0, d0;
    a, b, c, d := Quad(H, x, 0, a, b, c, d, (5, 8, 11, 14), (4, 11, 16, 23),
                       (0xfffa3942, 0x8771f681, 0x6d9d6122, 0xfde5380c));
    a, b, c, d := Quad(H, x, 4, a, b, c, d, (1, 4, 7, 10), (4, 11, 16, 23),
                       (0xa4beea44, 0x4bdecfa9, 0xf6bb4b60, 0xbebfbc70));
    a, b, c, d := Quad(H, x, 8, a, b, c, d, (13, 0, 3, 6), (4, 11, 16, 23),
                       (0x289b7ec6, 0xeaa127fa, 0xd4ef3085, 0x4881d05));
    a, b, c, d := Quad(H, x, 12, a, b, c, d, (9, 12, 15, 2), (4, 11, 16, 23),
                       (0xd9d4d039, 0xe6db99e5, 0x1fa27cf8, 0xc4ac5665));
  }

  method Round4(x: seq<ulong>, a0: ulong, b0: ulong, c0: ulong, d0: ulong)
    returns (a: ulong, b: ulong, c: ulong, d: ulong)
    requires AreWords(x)
    ensures LowWords(a, b, c, d) == SixteenSteps(I, LowWords(a0, b0, c0, d0), x)
  {
    hide Step, FourSteps;
    a, b, c, d := a0, b0, c0, d0;
    a, b, c, d := Quad(I, x, 0, a, b, c, d, (0, 7, 14, 5), (6, 10, 15, 21),
                       (0xf4292244, 0x432aff97, 0xab9423a7, 0xfc93a039));
    a, b, c, d := Quad(I, x, 4, a, b, c, d, (12, 3, 10, 1), (6, 10, 15, 21),
                       (0x655b59c3, 0x8f0ccc92, 0xffeff47d, 0x85845dd1));
    a, b, c, d := Quad(I, x, 8, a, b, c, d, (8, 15, 6, 13), (6, 10, 15, 21),
                       (0x6fa87e4f, 0xfe2ce6e0, 0xa3014314, 0x4e0811a1));
    a, b, c, d := Quad(I, x, 12, a, b, c, d, (4, 11, 2, 9), (6, 10, 15, 21),
                       (0xf7537e82, 0xbd3af235, 0x2ad7d2bb, 0xeb86d391));
  }

  /** Bytes put together above each other. */
  lemma {:induction false} OrAbove(low: nat, high: nat, k: nat)
    requires low < Power2(k)
    ensures Or(low, ShiftUp(high, k)) == low + ShiftUp(high, k)
  {
    OrDisjoint(high, low, k);
    BitwiseCommutes(OrOp, low, ShiftUp(high, k));
  }

  lemma {:induction false} ByteShifts(h: nat)
    ensures ShiftUp(h, 8) == 256 * h && ShiftUp(h, 16) == 65536 * h && ShiftUp(h, 24) == 16777216 * h
  {
    ShiftByte(h, 0);
    ShiftByte(h, 8);
    ShiftByte(h, 16);
  }

  lemma {:induction false} ShiftByte(h: nat, k: nat)
    ensures ShiftUp(h, k + 8) == 256 * ShiftUp(h, k)
  {
    assert ShiftUp(h, k + 2) == 4 * ShiftUp(h, k);
    assert ShiftUp(h, k + 4) == 4 * ShiftUp(h, k + 2);
    assert ShiftUp(h, k + 6) == 4 * ShiftUp(h, k + 4);
  }

  lemma {:induction false} OrFour(p: byte, q: byte, r: byte, s: byte)
    ensures Or(Or(Or(p, ShiftUp(q, 8)), ShiftUp(r, 16)), ShiftUp(s, 24)) == p + 256 * q + 65536 * r + 16777216 * s
  {
    hide Or, ShiftUp;
    assert Power2(0) == 1;
    EightMore(0);
    EightMore(8);
    EightMore(16);
    ByteShifts(q);
    ByteShifts(r);
    ByteShifts(s);
    OrAbove(p, q, 8);
    OrAbove(p + 256 * q, r, 16);
    OrAbove(p + 256 * q + 65536 * r, s, 24);
  }

  /** md5_decode of a whole block. */
  method Decode(block: array<byte>) returns (x: seq<ulong>)
    requires block.Length == BLOCK
    ensures AreWords(x) && x == WordsOf(block[..])
  {
    hide Or, ShiftUp;
    x := [];
    for i := 0 to 16
      invariant |x| == i && forall n :: 0 <= n < i ==> x[n] == WordAt(block[..], n)
    {
      var j := 4 * i;
      OrFour(block[j], block[j + 1], block[j + 2], block[j + 3]);
      x := x + [Or(Or(Or(block[j], ShiftUp(block[j + 1], 8)), ShiftUp(block[j + 2], 16)), ShiftUp(block[j + 3], 24))];
    }
  }

  /** md5_transform: the low halves of the state are what 32-bit words would hold. */
  method Transform(state: array<ulong>, block: array<byte>)
    requires state.Length == 4 && block.Length == BLOCK
    modifies state
    ensures LowWords(state[0], state[1], state[2], state[3])
            == Transformed(old(LowWords(state[0], state[1], state[2], state[3])), WordsOf(block[..]))
  {
    hide SixteenSteps;
    var x := Decode(block);
    var a, b, c, d := state[0], state[1], state[2], state[3];
    a, b, c, d := Round1(x, a, b, c, d);
    a, b, c, d := Round2(x, a, b, c, d);
    a, b, c, d := Round3(x, a, b, c, d);
    a, b, c, d := Round4(x, a, b, c, d);
    LowPlus(state[0], a);
    LowPlus(state[1], b);
    LowPlus(state[2], c);
    LowPlus(state[3], d);
    state[0], state[1], state[2], state[3] := Plus(state[0], a), Plus(state[1], b), Plus(state[2], c),
      Plus(state[3], d);
  }
}
