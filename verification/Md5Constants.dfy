/** Where the constants of MD5 come from (sections 3.3 and 3.4 of RFC 1321). */
module Md5Constants {
  import opened Md5
  import opened Md5Transform

  /** The initial words, low-order byte first: 01 23 45 67 89 ab cd ef fe dc ba 98 76 54 32 10. */
  lemma {:induction false} InitialBytes()
    ensures DigestBytes(IV) == seq(8, i => 0x01 + 0x22 * i) + seq(8, i => 0xfe - 0x22 * i)
  {
    assert BytesOf(IV.a) == [0x01, 0x23, 0x45, 0x67] && BytesOf(IV.b) == [0x89, 0xab, 0xcd, 0xef];
    assert BytesOf(IV.c) == [0xfe, 0xdc, 0xba, 0x98] && BytesOf(IV.d) == [0x76, 0x54, 0x32, 0x10];
    hide BytesOf;
  }

  /** With the sign of sin(n + 1), 355 / 113 being near enough to pi. */
  function Signed(n: nat): int {
    var s: int := Sine(n);
    if (n + 1) * 113 / 355 % 2 == 0 then s else -s
  }

  const TRILLION: int := 1000000000000

  /** 2 cos(1), times a trillion. */
  const TWICE: int := 1080604611736

  predicate Near(x: int, y: int, d: int) {
    -d <= x - y <= d
  }

  /** The first entry is the Taylor series of sin(1), times 2 to the 32. */
  lemma {:induction false} SinesBegin()
    ensures var f := 1 * 2 * 3 * 4 * 5 * 6 * 7 * 8 * 9 * 10 * 11;
            Near(Sine(0) * f, 0x1_0000_0000 * (f - f / 6 + f / 120 - f / 5040 + f / 362880 - f / 39916800), f)
    ensures Near(Signed(1) * TRILLION, TWICE * Signed(0), 3 * TRILLION)
  {
  }

  /** The others follow from sin(n + 3) + sin(n + 1) = 2 cos(1) sin(n + 2), but for what is cut off. */
  ghost predicate Follows(n: nat) {
    Near((Signed(n + 2) + Signed(n)) * TRILLION, TWICE * Signed(n + 1), 3 * TRILLION)
  }

  lemma {:induction false} SinesFrom0(n: nat)
    requires 0 <= n < 5
    ensures Follows(n)
  {
  }

  lemma {:induction false} SinesFrom5(n: nat)
    requires 5 <= n < 10
    ensures Follows(n)
  {
  }

  lemma {:induction false} SinesFrom10(n: nat)
    requires 10 <= n < 15
    ensures Follows(n)
  {
  }

  lemma {:induction false} SinesFrom15(n: nat)
    requires 15 <= n < 20
    ensures Follows(n)
  {
  }

  lemma {:induction false} SinesFrom20(n: nat)
    requires 20 <= n < 25
    ensures Follows(n)
  {
  }

  lemma {:induction false} SinesFrom25(n: nat)
    requires 25 <= n < 30
    ensures Follows(n)
  {
  }

  lemma {:induction false} SinesFrom30(n: nat)
    requires 30 <= n < 35
    ensures Follows(n)
  {
  }

  lemma {:induction false} SinesFrom35(n: nat)
    requires 35 <= n < 40
    ensures Follows(n)
  {
  }

  lemma {:induction false} SinesFrom40(n: nat)
    requires 40 <= n < 45
    ensures Follows(n)
  {
  }

  lemma {:induction false} SinesFrom45(n: nat)
    requires 45 <= n < 50
    ensures Follows(n)
  {
  }

  lemma {:induction false} SinesFrom50(n: nat)
    requires 50 <= n < 55
    ensures Follows(n)
  {
  }

  lemma {:induction false} SinesFrom55(n: nat)
    requires 55 <= n < 60
    ensures Follows(n)
  {
  }

  lemma {:induction false} SinesFrom60(n: nat)
    requires 60 <= n < 62
    ensures Follows(n)
  {
  }

  lemma {:induction false} SinesFollow(n: nat)
    requires n < 62
    ensures Follows(n)
  {
    hide Follows;
    match n / 5
    case 0 => SinesFrom0(n);
    case 1 => SinesFrom5(n);
    case 2 => SinesFrom10(n);
    case 3 => SinesFrom15(n);
    case 4 => SinesFrom20(n);
    case 5 => SinesFrom25(n);
    case 6 => SinesFrom30(n);
    case 7 => SinesFrom35(n);
    case 8 => SinesFrom40(n);
    case 9 => SinesFrom45(n);
    case 10 => SinesFrom50(n);
    case 11 => SinesFrom55(n);
    case 12 => SinesFrom60(n);
  }
}
