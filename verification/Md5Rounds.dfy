/** The rounds of MD5: section 3.4 of RFC 1321 on 32-bit words, and the macros RND1 to RND4 on an unsigned
    long of 64 bits, which mask only before they rotate. */
module Md5Rounds {
  import opened Bits

  const W32: nat := 0x1_0000_0000
  const W64: nat := 0x1_0000_0000_0000_0000

  type ulong = w: int | 0 <= w < 0x1_0000_0000_0000_0000

  /** What a word of 32 bits would hold. */
  function Low(w: nat): (r: nat)
    ensures r < W32
  {
    w % W32
  }

  // ----- 32-bit words -----

  function Not32(w: nat): nat {
    W32 - 1 - Low(w)
  }

  datatype Round = F | G | H | I

  /** The auxiliary functions. */
  function Mix(r: Round, x: nat, y: nat, z: nat): nat {
    match r
    case F => Or(And(x, y), And(Not32(x), z))
    case G => Or(And(x, z), And(y, Not32(z)))
    case H => Xor(Xor(x, y), z)
    case I => Xor(y, Or(x, Not32(z)))
  }

  /** Rotate a word left by s bits. */
  function Rotate(w: nat, s: nat): nat
    requires w < W32 && s < 32
  {
    Low(ShiftUp(w, s)) + ShiftDown(w, 32 - s)
  }

  /** a = b + ((a + Mix(b,c,d) + x + t) <<< s) */
  function Step(r: Round, a: nat, b: nat, c: nat, d: nat, x: nat, s: nat, t: nat): (w: nat)
    requires s < 32
    ensures w < W32
  {
    Low(b + Rotate(Low(a + Mix(r, b, c, d) + x + t), s))
  }

  // ----- a 64-bit unsigned long -----

  function Plus(x: nat, y: nat): (w: ulong) {
    (x + y) % 0x1_0000_0000_0000_0000
  }

  function Not64(w: ulong): ulong {
    W64 - 1 - w
  }

  function ShiftLeft(w: ulong, s: nat): ulong {
    ShiftUp(w, s) % 0x1_0000_0000_0000_0000
  }

  function ShiftRight(w: ulong, s: nat): nat {
    ShiftDown(w, s)
  }

  // ----- the low halves agree -----

  lemma {:induction false} EightMore(k: nat)
    ensures Power2(k + 8) == 256 * Power2(k)
  {
    assert Power2(k + 2) == 4 * Power2(k);
    assert Power2(k + 4) == 4 * Power2(k + 2);
    assert Power2(k + 6) == 4 * Power2(k + 4);
  }

  lemma {:induction false} Powers()
    ensures Power2(32) == W32 && Power2(64) == W64
  {
    EightMore(0);
    EightMore(8);
    EightMore(16);
    EightMore(24);
    EightMore(32);
    EightMore(40);
    EightMore(48);
    EightMore(56);
  }

  lemma {:induction false} LowBitwise(op: BitOp, x: nat, y: nat)
    ensures Low(Bitwise(op, x, y)) == Bitwise(op, Low(x), Low(y))
  {
    Powers();
    BitwiseLow(op, x, y, 32);
  }

  lemma {:induction false} LowNot(w: ulong)
    ensures Low(Not64(w)) == Not32(Low(w)) == Not32(w)
  {
    assert W64 == W32 * W32;
  }

  /** The mixing expressions of the four macros. */
  function Mixed(r: Round, b: ulong, c: ulong, d: ulong): nat {
    match r
    case F => Or(And(b, c), And(d, Not64(b)))
    case G => Or(And(b, d), And(c, Not64(d)))
    case H => Xor(Xor(b, c), d)
    case I => Xor(c, Or(b, Not64(d)))
  }

  lemma {:induction false} LowMixed(r: Round, b: ulong, c: ulong, d: ulong)
    ensures Low(Mixed(r, b, c, d)) == Mix(r, Low(b), Low(c), Low(d))
  {
    LowNot(b);
    LowNot(d);
    match r {
      case F =>
        LowBitwise(OrOp, And(b, c), And(d, Not64(b)));
        LowBitwise(AndOp, b, c);
        LowBitwise(AndOp, d, Not64(b));
        BitwiseCommutes(AndOp, Low(d), Not32(b));
      case G =>
        LowBitwise(OrOp, And(b, d), And(c, Not64(d)));
        LowBitwise(AndOp, b, d);
        LowBitwise(AndOp, c, Not64(d));
      case H =>
        LowBitwise(XorOp, Xor(b, c), d);
        LowBitwise(XorOp, b, c);
      case I =>
        LowBitwise(XorOp, c, Or(b, Not64(d)));
        LowBitwise(OrOp, b, Not64(d));
    }
  }

  lemma {:induction false} LowOfLong(v: nat)
    ensures Low(v % W64) == Low(v)
  {
    var k := W32 * (v / W64);
    assert v == v % W64 + W32 * k;
  }

  lemma {:induction false} LowOfSum(x: nat, y: nat)
    ensures Low(x + y) == Low(Low(x) + Low(y))
  {
    assert x + y == Low(x) + Low(y) + W32 * (x / W32 + y / W32);
  }

  lemma {:induction false} LowPlus(x: nat, y: nat)
    ensures Low(Plus(x, y)) == Low(Low(x) + Low(y))
  {
    LowOfLong(x + y);
    LowOfSum(x, y);
  }

  lemma {:induction false} LowOfLow(x: nat, y: nat)
    ensures Low(x + Low(y)) == Low(x + y)
  {
    assert x + y == x + Low(y) + W32 * (y / W32);
  }

  lemma {:induction false} LowSum(a: ulong, f: nat, x: ulong, ac: ulong)
    ensures And(Plus(a, Plus(Plus(f, x), ac)), 0xffffffff) == Low(Low(a) + Low(f) + Low(x) + Low(ac))
  {
    Powers();
    Mask(Plus(a, Plus(Plus(f, x), ac)), 32);
    LowPlus(a, Plus(Plus(f, x), ac));
    LowPlus(Plus(f, x), ac);
    LowPlus(f, x);
    LowOfLow(Low(ac), Low(f) + Low(x));
    LowOfLow(Low(a), Low(f) + Low(x) + Low(ac));
  }

  /** On a masked word the two shifts do not meet, and nothing is shifted out. */
  lemma {:induction false} ShiftsApart(m: ulong, s: nat)
    requires m < W32 && s < 32
    ensures Or(ShiftLeft(m, s), ShiftRight(m, 32 - s)) == ShiftUp(m, s) + ShiftDown(m, 32 - s)
  {
    assert ShiftLeft(m, s) == ShiftUp(m, s) by {
      ShiftStays(m, s);
    }
    assert ShiftDown(m, 32 - s) < Power2(s) by {
      Powers();
      ShiftDownBound(m, 32 - s, s);
    }
    OrDisjoint(m, ShiftDown(m, 32 - s), s);
  }

  lemma {:induction false} ShiftStays(m: ulong, s: nat)
    requires m < W32 && s < 32
    ensures ShiftLeft(m, s) == ShiftUp(m, s)
  {
    var t := ShiftUp(m, s);
    assert t < W64 by {
      Powers();
      ShiftUpBound(m, s, 32);
      Power2Grows(32 + s, 64);
    }
  }

  lemma {:induction false} LowOfShifts(b: nat, t: nat, h: nat)
    ensures Low(Plus(b, t + h)) == Low(Low(b) + (Low(t) + h))
  {
    LowPlus(b, t + h);
    LowOfLow(Low(b), t + h);
    LowOfLow(Low(b) + h, t);
    assert Low(b) + (t + h) == Low(b) + h + t;
  }

  lemma {:induction false} LowRotate(m: ulong, s: nat, b: ulong)
    requires m < W32 && s < 32
    ensures Low(Plus(b, Or(ShiftLeft(m, s), ShiftRight(m, 32 - s)))) == Low(Low(b) + Rotate(m, s))
  {
    ShiftsApart(m, s);
    LowOfShifts(b, ShiftUp(m, s), ShiftDown(m, 32 - s));
  }

  /** What the three statements of a macro do to a. */
  method Rnd(r: Round, a: ulong, b: ulong, c: ulong, d: ulong, x: ulong, s: nat, ac: ulong) returns (a': ulong)
    requires s < 32 && x < W32 && ac < W32
    ensures Low(a') == Step(r, Low(a), Low(b), Low(c), Low(d), x, s, ac)
  {
    hide Mix, Mixed, Rotate, And, Or, Plus, ShiftLeft, ShiftRight;
    ghost var f := Mixed(r, b, c, d);
    ghost var sum := Low(Low(a) + Low(f) + Low(x) + Low(ac));
    a' := Plus(a, Plus(Plus(Mixed(r, b, c, d), x), ac));
    LowSum(a, f, x, ac);
    a' := And(a', 0xffffffff);
    assert a' == sum;
    a' := Plus(b, Or(ShiftLeft(a', s), ShiftRight(a', 32 - s)));
    assert Low(a') == Low(Low(b) + Rotate(sum, s)) by {
      LowRotate(sum, s, b);
    }
    LowMixed(r, b, c, d);
  }
}
