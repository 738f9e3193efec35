/** The case-insensitive substring search of misc.c. */
module Search {
  import opened Bits
  import opened Bytes

  // ----- characters -----

  predicate IsLetter(c: byte) {
    65 <= c <= 90 || 97 <= c <= 122
  }

  function ToUpper(c: byte): byte {
    if 97 <= c <= 122 then c - 32 else c
  }

  /** The bits alphatab compares: all but the case bit for a letter, all for anything else. */
  function Alpha(c: byte): nat {
    if IsLetter(c) then 0xdf else 0xff
  }

  lemma {:induction false} XorZero(a: nat, b: nat)
    ensures Xor(a, b) == 0 <==> a == b
    decreases a + b
  {
    if a != 0 || b != 0 {
      XorZero(a / 2, b / 2);
    }
  }

  lemma NoBits(op: BitOp)
    ensures Bitwise(op, 0, 0) == 0
  {
  }

  /** The operators work on the low five bits and on the rest apart. */
  lemma {:induction false} BitwiseApart(op: BitOp, a: nat, x: nat, b: nat, y: nat, k: nat)
    requires x < Power2(k) && y < Power2(k)
    ensures Bitwise(op, ShiftUp(a, k) + x, ShiftUp(b, k) + y) == ShiftUp(Bitwise(op, a, b), k) + Bitwise(op, x, y)
  {
    hide Bitwise;
    if k == 0 {
      NoBits(op);
    } else {
      BitwiseApart(op, a, x / 2, b, y / 2, k - 1);
      BitwiseStep(op, ShiftUp(a, k) + x, ShiftUp(b, k) + y, x % 2, y % 2, ShiftUp(a, k - 1) + x / 2,
                  ShiftUp(b, k - 1) + y / 2);
      BitwiseStep(op, x, y, x % 2, y % 2, x / 2, y / 2);
    }
  }

  lemma {:induction false} FiveUp(h: nat)
    ensures ShiftUp(h, 5) == 32 * h && Power2(5) == 32
  {
    assert ShiftUp(h, 1) == 2 * h;
    assert ShiftUp(h, 3) == 8 * h;
    assert Power2(3) == 8;
  }

  lemma {:induction false} Apart(op: BitOp, c: nat, d: nat)
    ensures Bitwise(op, c, d) == 32 * Bitwise(op, c / 32, d / 32) + Bitwise(op, c % 32, d % 32)
  {
    FiveUp(c / 32);
    FiveUp(d / 32);
    FiveUp(Bitwise(op, c / 32, d / 32));
    BitwiseApart(op, c / 32, c % 32, d / 32, d % 32, 5);
  }

  /** x & 0xdf */
  lemma {:induction false} ClearCase(x: nat)
    requires x < 256
    ensures And(x, 0xdf) == 32 * (x / 32 - x / 32 % 2) + x % 32
  {
    hide Bitwise, ShiftUp;
    var h := x / 32;
    Apart(AndOp, x, 0xdf);
    FiveUp(0);
    Mask(x % 32, 5);
    Mask(h / 2, 2);
    BitwiseStep(AndOp, h, 6, h % 2, 0, h / 2, 3);
    assert And(x % 32, 31) == x % 32 && And(h / 2, 3) == h / 2;
    assert And(h, 6) == 2 * (h / 2);
  }

  /** x | 0x20 */
  lemma {:induction false} SetCase(x: nat)
    requires x < 256
    ensures Or(x, 0x20) == 32 * (x / 32 - x / 32 % 2 + 1) + x % 32
  {
    hide Bitwise;
    var h := x / 32;
    Apart(OrOp, x, 0x20);
    OrZero(x % 32);
    OrZero(h / 2);
    BitwiseStep(OrOp, h, 1, h % 2, 1, h / 2, 0);
  }

  /** The two cases of a letter. */
  lemma {:induction false} BothCases(c: byte)
    requires IsLetter(c)
    ensures And(c, 0xdf) == ToUpper(c) && Or(c, 0x20) == ToUpper(c) + 32
  {
    hide Bitwise;
    ClearCase(c);
    SetCase(c);
  }

  lemma {:induction false} XorBound(a: nat, b: nat, k: nat)
    requires a < Power2(k) && b < Power2(k)
    ensures Xor(a, b) < Power2(k)
  {
    if k > 0 {
      XorBound(a / 2, b / 2, k - 1);
    } else {
      assert Xor(0, 0) == 0;
    }
  }

  /** With the case bit left out, the low five bits and the top two are compared. */
  lemma {:induction false} CompareLetters(c: byte, p: byte)
    ensures And(Xor(c, p), 0xdf) == 0 <==> c % 32 == p % 32 && c / 32 / 2 == p / 32 / 2
  {
    hide Bitwise;
    var (x, h) := (Xor(c, p), Xor(c / 32, p / 32));
    assert x < 256 by {
      assert Power2(4) == 16;
      XorBound(c, p, 8);
    }
    ClearCase(x);
    Apart(XorOp, c, p);
    assert Xor(c % 32, p % 32) < 32 by {
      FiveUp(0);
      XorBound(c % 32, p % 32, 5);
    }
    XorZero(c % 32, p % 32);
    assert h / 2 == Xor(c / 32 / 2, p / 32 / 2) by {
      BitwiseStep(XorOp, c / 32, p / 32, c / 32 % 2, p / 32 % 2, c / 32 / 2, p / 32 / 2);
    }
    XorZero(c / 32 / 2, p / 32 / 2);
  }

  lemma SameFold(c: byte, p: byte)
    requires IsLetter(c)
    ensures c % 32 == p % 32 && c / 32 / 2 == p / 32 / 2 <==> ToUpper(c) == ToUpper(p)
  {
    assert c == 64 * (c / 32 / 2) + 32 * (c / 32 % 2) + c % 32;
    assert p == 64 * (p / 32 / 2) + 32 * (p / 32 % 2) + p % 32;
  }

  /** The comparison of the search: !((c ^ p) & alphatab[c]) says that c and p are the same character up to
      its case. */
  lemma {:induction false} CompareIs(c: byte, p: byte)
    ensures And(Xor(c, p), Alpha(c)) == 0 <==> ToUpper(c) == ToUpper(p)
  {
    hide Bitwise, And, Xor;
    if IsLetter(c) {
      CompareLetters(c, p);
      SameFold(c, p);
    } else {
      assert Power2(4) == 16;
      XorBound(c, p, 8);
      Mask(Xor(c, p), 8);
      XorZero(c, p);
    }
  }

  // ----- the search -----

  predicate SameLetter(c: byte, p: byte) {
    ToUpper(c) == ToUpper(p)
  }

  /** The pattern stands at position s of the base. */
  ghost predicate MatchAt(base: seq<byte>, pat: seq<byte>, s: nat) {
    s + |pat| <= |base| && forall j :: 0 <= j < |pat| ==> SameLetter(base[s + j], pat[j])
  }

  ghost predicate Occurs(base: seq<byte>, pat: seq<byte>) {
    exists s: nat :: MatchAt(base, pat, s)
  }

  /** The first i characters of the pattern are marked, in both cases. */
  ghost predicate Marks(mask: seq<bool>, pat: seq<byte>, i: nat) {
    && |mask| == 256 && i <= |pat|
    && forall c: byte :: mask[c] <==> exists t :: 0 <= t < i && SameLetter(c, pat[t])
  }

  /** One character of the pattern. */
  method MarkOne(mask: array<bool>, pat: seq<byte>, i: nat)
    requires mask.Length == 256 && i < |pat| && Marks(mask[..], pat, i)
    modifies mask
    ensures Marks(mask[..], pat, i + 1)
  {
    hide Bitwise;
    ghost var was := mask[..];
    var c := pat[i];
    if !mask[c] {
      if And(Alpha(c), 0x20) != 0 {
        CaseBit(c);
        mask[c] := true;
      } else {
        CaseBit(c);
        BothCases(c);
        mask[And(c, 0xdf)] := true;
        mask[Or(c, 0x20)] := true;
      }
    } else {
      assert was[c];
    }
    MarkedMore(was, mask[..], pat, i);
  }

  lemma {:induction false} CaseBit(c: byte)
    ensures And(Alpha(c), 0x20) != 0 <==> !IsLetter(c)
  {
    hide Bitwise;
    Apart(AndOp, 0xff, 0x20);
    Apart(AndOp, 0xdf, 0x20);
    AndZero(31);
    AndZero(3);
    BitwiseStep(AndOp, 7, 1, 1, 1, 3, 0);
    BitwiseStep(AndOp, 6, 1, 0, 1, 3, 0);
  }

  lemma {:induction false} MarkedMore(was: seq<bool>, mask: seq<bool>, pat: seq<byte>, i: nat)
    requires i < |pat| && Marks(was, pat, i) && |mask| == 256
    requires forall c: byte :: mask[c] <==> was[c] || (!was[pat[i]] && SameLetter(c, pat[i]))
    ensures Marks(mask, pat, i + 1)
  {
    forall c: byte
      ensures mask[c] <==> exists t :: 0 <= t < i + 1 && SameLetter(c, pat[t])
    {
      if was[c] {
        var t :| 0 <= t < i && SameLetter(c, pat[t]);
        assert SameLetter(c, pat[t]);
      }
      if SameLetter(c, pat[i]) && was[pat[i]] {
        var t :| 0 <= t < i && SameLetter(pat[i], pat[t]);
        assert SameLetter(c, pat[t]);
      }
    }
  }

  /** The inner loop: compare backwards from the end of the window at i, up to a mismatch at j. */
  method Compare(base: seq<byte>, pat: seq<byte>, i: nat) returns (found: bool, j: nat)
    requires pat != [] && |pat| - 1 <= i < |base|
    ensures found ==> MatchAt(base, pat, i + 1 - |pat|)
    ensures !found ==> j < |pat| && !SameLetter(base[i + 1 - |pat| + j], pat[j])
  {
    hide Bitwise, ToUpper;
    j := |pat| - 1;
    var k := i;
    var c := base[k];
    CompareIs(c, pat[j]);
    while And(Xor(c, pat[j]), Alpha(c)) == 0
      invariant j < |pat| && k == i + 1 - |pat| + j && c == base[k]
      invariant And(Xor(c, pat[j]), Alpha(c)) == 0 <==> SameLetter(c, pat[j])
      invariant forall t :: j < t < |pat| ==> SameLetter(base[i + 1 - |pat| + t], pat[t])
      decreases j
    {
      if j == 0 {
        return true, 0;
      }
      j := j - 1;
      k := k - 1;
      c := base[k];
      CompareIs(c, pat[j]);
    }
    found := false;
  }

  /** No match ends before i. */
  ghost predicate NoneBefore(base: seq<byte>, pat: seq<byte>, i: nat) {
    forall s: nat :: s + |pat| - 1 < i ==> !MatchAt(base, pat, s)
  }

  /** Every character of a match is marked. */
  lemma {:induction false} WindowIsMarked(base: seq<byte>, pat: seq<byte>, mask: seq<bool>, s: nat, k: nat)
    requires Marks(mask, pat, |pat|) && MatchAt(base, pat, s) && s <= k < s + |pat|
    ensures mask[base[k]] && SameLetter(base[k], pat[k - s])
  {
    assert SameLetter(base[s + (k - s)], pat[k - s]);
  }

  /** The skip never jumps over a match: past a character that is nowhere in the pattern no window before
      that character's end can match. */
  lemma {:induction false} SkipIsSafe(base: seq<byte>, pat: seq<byte>, mask: seq<bool>, i: nat, j: nat)
    requires pat != [] && |pat| - 1 <= i < |base| && j < |pat| && Marks(mask, pat, |pat|)
    requires NoneBefore(base, pat, i) && !SameLetter(base[i + 1 - |pat| + j], pat[j])
    ensures NoneBefore(base, pat, i + if mask[base[i + 1 - |pat| + j]] then 1 else j + 1)
  {
    var k := i + 1 - |pat| + j;
    var next := i + if mask[base[k]] then 1 else j + 1;
    forall s: nat | s + |pat| - 1 < next
      ensures !MatchAt(base, pat, s)
    {
      if s + |pat| - 1 >= i && MatchAt(base, pat, s) {
        WindowIsMarked(base, pat, mask, s, k);
      }
    }
  }

  /** The pattern's characters marked in a new mask. */
  method MakeMask(pat: seq<byte>) returns (mask: array<bool>)
    ensures fresh(mask) && Marks(mask[..], pat, |pat|)
  {
    mask := new bool[256](i => false);
    for i := 0 to |pat|
      invariant Marks(mask[..], pat, i)
    {
      MarkOne(mask, pat, i);
    }
  }

  /** search: whether the pattern occurs in the base, up to the case of ASCII letters.  In an empty base
      it finds nothing, not even the empty pattern. */
  method Search(base: seq<byte>, pat: seq<byte>) returns (found: bool)
    ensures found <==> base != [] && Occurs(base, pat)
  {
    if |base| > 0 && |base| >= |pat| {
      if |pat| == 0 {
        assert MatchAt(base, pat, 0);
        return true;
      }
      var mask := MakeMask(pat);
      var i: nat := |pat| - 1;
      while i < |base|
        invariant |pat| - 1 <= i && NoneBefore(base, pat, i) && Marks(mask[..], pat, |pat|)
      {
        var hit, j := Compare(base, pat, i);
        if hit {
          return true;
        }
        SkipIsSafe(base, pat, mask[..], i, j);
        i := i + if mask[base[i + 1 - |pat| + j]] then 1 else j + 1;
      }
    }
    found := false;
  }

  /** So the empty pattern is the only one whose answer depends on the base not being empty. */
  lemma EmptyBase(pat: seq<byte>)
    ensures Occurs([], pat) <==> pat == []
  {
    if pat == [] {
      assert MatchAt([], pat, 0);
    }
  }
}
