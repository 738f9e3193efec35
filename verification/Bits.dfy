/** The bit operators of C on unsigned numbers. */
module Bits {
  function Power2(k: nat): (p: nat)
    ensures p > 0
  {
    if k == 0 then 1 else 2 * Power2(k - 1)
  }

  datatype BitOp = AndOp | OrOp | XorOp

  /** The operator on one bit. */
  function Bit(op: BitOp, p: nat, q: nat): (r: nat)
    requires p < 2 && q < 2
    ensures r < 2
  {
    match op
    case AndOp => if p == 1 && q == 1 then 1 else 0
    case OrOp => if p == 1 || q == 1 then 1 else 0
    case XorOp => if p != q then 1 else 0
  }

  /** The operator on all bits. */
  function Bitwise(op: BitOp, a: nat, b: nat): nat
    decreases a + b
  {
    if a == 0 && b == 0 then 0 else Bit(op, a % 2, b % 2) + 2 * Bitwise(op, a / 2, b / 2)
  }

  function And(a: nat, b: nat): nat {
    Bitwise(AndOp, a, b)
  }

  function Or(a: nat, b: nat): nat {
    Bitwise(OrOp, a, b)
  }

  function Xor(a: nat, b: nat): nat {
    Bitwise(XorOp, a, b)
  }

  lemma {:induction false} BitwiseCommutes(op: BitOp, a: nat, b: nat)
    ensures Bitwise(op, a, b) == Bitwise(op, b, a)
    decreases a + b
  {
    if a != 0 || b != 0 {
      BitwiseCommutes(op, a / 2, b / 2);
    }
  }

  /** The low k bits of twice q and one bit more. */
  lemma {:induction false} LowOfDouble(q: nat, b: nat, k: nat)
    requires b < 2
    ensures (b + 2 * q) % Power2(k + 1) == b + 2 * (q % Power2(k))
  {
    var p := Power2(k);
    var (x, y) := (q / p, q % p);
    assert b + 2 * q == (b + 2 * y) + x * (2 * p) by {
      assert q == x * p + y;
      assert 2 * (x * p) == x * (2 * p);
    }
    ModOfMultiple(b + 2 * y, x, 2 * p);
  }

  lemma {:induction false} ModOfMultiple(r: nat, x: nat, m: nat)
    requires r < m
    ensures (r + x * m) % m == r && (r + x * m) / m == x
  {
    if x > 0 {
      ModOfMultiple(r, x - 1, m);
      assert r + x * m == (r + (x - 1) * m) + m;
      var v := r + (x - 1) * m;
      assert v + m == (v / m + 1) * m + v % m;
      DivModUnique(v + m, m, v / m + 1, v % m);
    } else {
      assert x * m == 0;
    }
  }

  lemma {:induction false} DivModUnique(v: nat, m: nat, q: nat, r: nat)
    requires r < m && v == q * m + r
    ensures v / m == q && v % m == r
  {
    var d := v / m - q;
    assert v == (v / m) * m + v % m;
    assert d * m == r - v % m by {
      assert (v / m) * m - q * m == d * m;
    }
    assert d >= 1 ==> d * m >= m;
    assert d <= -1 ==> (d + 1) * m <= 0;
  }

  lemma {:induction false} BitwiseStep(op: BitOp, a: nat, b: nat, p: nat, q: nat, x: nat, y: nat)
    requires p < 2 && q < 2 && a == p + 2 * x && b == q + 2 * y
    ensures Bitwise(op, a, b) == Bit(op, p, q) + 2 * Bitwise(op, x, y)
  {
    assert a % 2 == p && a / 2 == x && b % 2 == q && b / 2 == y;
  }

  /** The low bits of the result come from the low bits of the operands. */
  lemma {:induction false} BitwiseLow(op: BitOp, a: nat, b: nat, k: nat)
    ensures Bitwise(op, a, b) % Power2(k) == Bitwise(op, a % Power2(k), b % Power2(k))
    decreases k
  {
    if k > 0 {
      var (p, q, x, y) := (a % 2, b % 2, a / 2, b / 2);
      var (m, u, v) := (Power2(k), x % Power2(k - 1), y % Power2(k - 1));
      BitwiseLow(op, x, y, k - 1);
      assert a % m == p + 2 * u by { LowOfDouble(x, p, k - 1); }
      assert b % m == q + 2 * v by { LowOfDouble(y, q, k - 1); }
      BitwiseStep(op, a, b, p, q, x, y);
      BitwiseStep(op, p + 2 * u, q + 2 * v, p, q, u, v);
      LowOfDouble(Bitwise(op, x, y), Bit(op, p, q), k - 1);
    } else {
      assert Bitwise(op, 0, 0) == 0;
    }
  }

  // ----- shifts -----

  function ShiftUp(w: nat, s: nat): nat {
    if s == 0 then w else 2 * ShiftUp(w, s - 1)
  }

  function ShiftDown(w: nat, s: nat): nat {
    if s == 0 then w else ShiftDown(w / 2, s - 1)
  }

  lemma {:induction false} ShiftUpBound(w: nat, s: nat, k: nat)
    requires w < Power2(k)
    ensures ShiftUp(w, s) < Power2(k + s)
  {
    if s > 0 {
      ShiftUpBound(w, s - 1, k);
    }
  }

  lemma {:induction false} ShiftDownBound(w: nat, s: nat, k: nat)
    requires w < Power2(k + s)
    ensures ShiftDown(w, s) < Power2(k)
  {
    if s > 0 {
      ShiftDownBound(w / 2, s - 1, k);
    }
  }

  lemma {:induction false} Power2Grows(j: nat, k: nat)
    requires j <= k
    ensures Power2(j) <= Power2(k)
  {
    if j < k {
      Power2Grows(j, k - 1);
    }
  }

  /** Or of bits that do not meet is their sum. */
  lemma {:induction false} OrDisjoint(a: nat, b: nat, k: nat)
    requires b < Power2(k)
    ensures Or(ShiftUp(a, k), b) == ShiftUp(a, k) + b
  {
    if k == 0 {
      OrZero(a);
    } else {
      OrDisjoint(a, b / 2, k - 1);
      BitwiseStep(OrOp, ShiftUp(a, k), b, 0, b % 2, ShiftUp(a, k - 1), b / 2);
    }
  }

  lemma {:induction false} OrZero(a: nat)
    ensures Or(a, 0) == a
  {
    if a > 0 {
      OrZero(a / 2);
    }
  }

  /** Masking with k ones. */
  lemma {:induction false} Mask(a: nat, k: nat)
    ensures And(a, Power2(k) - 1) == a % Power2(k)
  {
    if k == 0 {
      AndZero(a);
    } else {
      var m: nat := Power2(k - 1) - 1;
      Mask(a / 2, k - 1);
      LowOfDouble(a / 2, a % 2, k - 1);
      MaskStep(a, m, a / 2, a % 2);
    }
  }

  lemma {:induction false} MaskStep(a: nat, m: nat, x: nat, p: nat)
    requires p < 2 && a == p + 2 * x
    ensures And(a, 1 + 2 * m) == p + 2 * And(x, m)
  {
    BitwiseStep(AndOp, a, 1 + 2 * m, p, 1, x, m);
  }

  lemma {:induction false} AndZero(a: nat)
    ensures And(a, 0) == 0
  {
    if a > 0 {
      AndZero(a / 2);
    }
  }
}
