/** Base64: rfc822_binary and rfc822_base64 (section 6.8 of RFC 2045). */
module Base64 {
  import opened Bits
  import opened Buffers
  import opened Bytes
  import opened Options

  /** The alphabet. */
  function Digit(n: nat): (c: byte)
    requires n < 64
  {
    if n < 26 then 65 + n
    else if n < 52 then 97 + (n - 26)
    else if n < 62 then 48 + (n - 52)
    else if n == 62 then 43
    else 47
  }

  datatype Class = Data(value: nat) | White | Pad | Junk

  /** The decoding table. */
  function Classify(c: byte): (r: Class)
    ensures r.Data? ==> r.value < 64
  {
    if 65 <= c <= 90 then Data(c - 65)
    else if 97 <= c <= 122 then Data(c - 97 + 26)
    else if 48 <= c <= 57 then Data(c - 48 + 52)
    else if c == 43 then Data(62)
    else if c == 47 then Data(63)
    else if c == EQ then Pad
    else if c == 0 || c == 9 || c == 10 || c == 12 || c == 13 || c == 32 then White
    else Junk
  }

  lemma DigitDecodes(n: nat)
    requires n < 64
    ensures Classify(Digit(n)) == Data(n) && Digit(n) > SPC
  {
  }

  // ----- what the encoder writes -----

  const CRLF: seq<byte> := [CR, LF]

  function Tuplet(x: nat, y: nat, z: nat): (r: seq<byte>)
    requires x < 256 && y < 256 && z < 256
    ensures |r| == 4
  {
    [Digit(x / 4), Digit((x * 16 + y / 16) % 64), Digit((y * 4 + z / 64) % 64), Digit(z % 64)]
  }

  /** The last one or two bytes. */
  function Remainder(s: seq<byte>): (r: seq<byte>)
    requires 1 <= |s| <= 2
    ensures |r| == 4
  {
    var a: nat := s[0];
    var b: nat := if |s| == 2 then s[1] else 0;
    [Digit(a / 4), Digit((a * 16 + b / 16) % 64), if |s| == 2 then Digit(b * 4 % 64) else EQ, EQ]
  }

  /** The line break after the i-th tuplet of a line, if there is one; without broken there is none. */
  function BreakAfter(i: nat, broken: bool): seq<byte> {
    if broken && i == 15 then CRLF else []
  }

  function NextInLine(i: nat): nat {
    if i == 15 then 0 else i
  }

  /** The encoding of s, i tuplets into a line; without broken, the same with no line breaks. */
  ghost function Encoded(s: seq<byte>, i: nat, broken: bool): seq<byte> {
    if |s| >= 3 then
      Tuplet(s[0], s[1], s[2]) + (BreakAfter(i + 1, broken) + Encoded(s[3..], NextInLine(i + 1), broken))
    else if s == [] then if broken then CRLF else []
    else Remainder(s) + (BreakAfter(i + 1, broken) + if broken then CRLF else [])
  }

  /** The length rfc822_binary predicts. */
  function Predicted(n: nat): nat {
    var i := (n + 2) / 3 * 4;
    i + 2 * (i / 60 + 1)
  }

  /** The length of the lines and breaks for n bytes, i tuplets into a line. */
  function LinesLength(n: nat, i: nat): nat {
    var tuplets := (n + 2) / 3;
    4 * tuplets + 2 * ((i + tuplets) / 15 + 1)
  }

  lemma LengthStep(n: nat, i: nat)
    requires n >= 3 && i < 15
    ensures LinesLength(n, i) == 4 + |BreakAfter(i + 1, true)| + LinesLength(n - 3, NextInLine(i + 1))
  {
  }

  lemma {:induction false} EncodedLength(s: seq<byte>, i: nat)
    requires i < 15
    ensures |Encoded(s, i, true)| == LinesLength(|s|, i)
    decreases |s|
  {
    if |s| >= 3 {
      hide LinesLength, BreakAfter;
      LengthStep(|s|, i);
      EncodedLength(s[3..], NextInLine(i + 1));
    }
  }

  /** The bytes written are always as many as predicted. */
  lemma LengthAsPredicted(s: seq<byte>)
    ensures |Encoded(s, 0, true)| == Predicted(|s|)
  {
    EncodedLength(s, 0);
    var q := (|s| + 2) / 3;
    assert q * 4 / 60 == q / 15;
  }

  // ----- what the decoder reads -----

  /** The bits already collected for the byte at quantum position e; the low bits are still clear. */
  ghost predicate GoodPart(part: byte, e: nat) {
    e <= 3 && (e == 1 ==> part % 4 == 0) && (e == 2 ==> part % 16 == 0) && (e == 3 ==> part % 64 == 0)
  }

  /** The byte that the character c completes at quantum position e. */
  function Completed(part: byte, e: nat, c: nat): (b: byte)
    requires GoodPart(part, e) && 1 <= e && c < 64
  {
    part + if e == 1 then c / 16 else if e == 2 then c / 4 else c
  }

  /** What c leaves for the byte after it; the bits shifted out of a byte are lost. */
  function Started(e: nat, c: nat): (b: byte)
    requires e <= 3 && c < 64
    ensures GoodPart(b, (e + 1) % 4)
  {
    if e == 0 then c * 4 else if e == 1 then c % 16 * 16 else if e == 2 then c % 4 * 64 else 0
  }

  function Output(out: seq<byte>, part: byte, e: nat, c: nat): seq<byte>
    requires GoodPart(part, e) && c < 64
  {
    if e == 0 then out else out + [Completed(part, e, c)]
  }

  /** The decoder from a given state: out is complete, part is the byte being put together. */
  ghost function Decoded(s: seq<byte>, out: seq<byte>, part: byte, e: nat): Option<seq<byte>>
    requires GoodPart(part, e)
    decreases |s|
  {
    if s == [] then Some(out)
    else
      match Classify(s[0])
      case Data(c) => Decoded(s[1..], Output(out, part, e, c), Started(e, c), (e + 1) % 4)
      case White => Decoded(s[1..], out, part, e)
      case Pad =>
        if e == 3 then Some(out)
        else if e == 2 && |s| > 1 && s[1] == EQ then Some(out)
        else None
      case Junk => None
  }

  // ----- round trip -----

  lemma {:induction false} DecodeDigit(n: nat, rest: seq<byte>, out: seq<byte>, part: byte, e: nat)
    requires n < 64 && GoodPart(part, e)
    ensures Decoded([Digit(n)] + rest, out, part, e)
            == Decoded(rest, Output(out, part, e, n), Started(e, n), (e + 1) % 4)
  {
    hide Output, Started, Digit, Classify;
    DigitDecodes(n);
    assert ([Digit(n)] + rest)[1..] == rest;
  }

  /** How the digits of a quantum divide its bits. */
  lemma {:induction false} FirstBits(x: nat, y: nat)
    requires x < 256 && y < 256
    ensures (x * 16 + y / 16) % 64 == x % 4 * 16 + y / 16
  {
    assert x * 16 == 64 * (x / 4) + x % 4 * 16;
  }

  lemma {:induction false} LastBits(y: nat, z: nat)
    requires y < 256 && z < 256
    ensures (y * 4 + z / 64) % 64 == y % 16 * 4 + z / 64
  {
    assert y * 4 == 64 * (y / 16) + y % 16 * 4;
  }

  /** The first two digits of a quantum carry the first byte whole and the high half of the second. */
  lemma {:induction false} TwoDigits(x: nat, y: nat, out: seq<byte>)
    requires x < 256 && y < 256
    ensures var m := (x * 16 + y / 16) % 64;
            Output(out, Started(0, x / 4), 1, m) == out + [x] && Started(1, m) == y / 16 * 16
  {
    FirstBits(x, y);
  }

  lemma {:induction false} DecodeTwo(x: nat, y: nat, rest: seq<byte>, out: seq<byte>)
    requires x < 256 && y < 256
    ensures GoodPart(y / 16 * 16, 2)
    ensures Decoded([Digit(x / 4)] + ([Digit((x * 16 + y / 16) % 64)] + rest), out, 0, 0)
            == Decoded(rest, out + [x], y / 16 * 16, 2)
  {
    hide Decoded, Started, Digit;
    var m := (x * 16 + y / 16) % 64;
    DecodeDigit(x / 4, [Digit(m)] + rest, out, 0, 0);
    DecodeDigit(m, rest, out, Started(0, x / 4), 1);
    TwoDigits(x, y, out);
  }

  /** The third digit carries the rest of the second byte and the top of the third, the fourth the rest. */
  lemma {:induction false} ThirdDigit(y: nat, z: nat, out: seq<byte>)
    requires y < 256 && z < 256
    ensures var m := (y * 4 + z / 64) % 64;
            && GoodPart(y / 16 * 16, 2)
            && Output(out, y / 16 * 16, 2, m) == out + [y] && Started(2, m) == z / 64 * 64
            && Output(out, z / 64 * 64, 3, z % 64) == out + [z] && Started(3, z % 64) == 0
  {
    LastBits(y, z);
  }

  lemma {:induction false} DecodeTuplet(x: byte, y: byte, z: byte, rest: seq<byte>, out: seq<byte>)
    ensures Decoded(Tuplet(x, y, z) + rest, out, 0, 0) == Decoded(rest, out + [x, y, z], 0, 0)
  {
    hide Decoded, Started, Output, Digit;
    var m: nat := (y * 4 + z / 64) % 64;
    var last := [Digit(z % 64)] + rest;
    assert Tuplet(x, y, z) + rest == [Digit(x / 4)] + ([Digit((x * 16 + y / 16) % 64)] + ([Digit(m)] + last));
    DecodeTwo(x, y, [Digit(m)] + last, out);
    ThirdDigit(y, z, out + [x]);
    ThirdDigit(y, z, out + [x] + [y]);
    DecodeDigit(m, last, out + [x], y / 16 * 16, 2);
    DecodeDigit(z % 64, rest, out + [x] + [y], z / 64 * 64, 3);
    assert out + [x] + [y] + [z] == out + [x, y, z];
  }

  lemma {:induction false} DecodeOne(x: byte, rest: seq<byte>, out: seq<byte>)
    ensures Decoded(Remainder([x]) + rest, out, 0, 0) == Some(out + [x])
  {
    var pad := [EQ, EQ] + rest;
    assert Remainder([x]) + rest == [Digit(x / 4)] + ([Digit((x * 16 + 0 / 16) % 64)] + pad);
    DecodeTwo(x, 0, pad, out);
  }

  /** One padding character ends the data in the fourth place of a quantum. */
  lemma DecodePad(rest: seq<byte>, out: seq<byte>, part: byte)
    requires GoodPart(part, 3)
    ensures Decoded([EQ] + rest, out, part, 3) == Some(out)
  {
  }

  lemma {:induction false} DecodePair(x: byte, y: byte, rest: seq<byte>, out: seq<byte>)
    ensures Decoded(Remainder([x, y]) + rest, out, 0, 0) == Some(out + [x, y])
  {
    hide Decoded, Started, Output, Digit;
    var m: nat := (y * 4 + 0 / 64) % 64;
    var pad := [EQ] + rest;
    assert Remainder([x, y]) + rest == [Digit(x / 4)] + ([Digit((x * 16 + y / 16) % 64)] + ([Digit(m)] + pad));
    DecodeTwo(x, y, [Digit(m)] + pad, out);
    ThirdDigit(y, 0, out + [x]);
    DecodeDigit(m, pad, out + [x], y / 16 * 16, 2);
    DecodePad(rest, out + [x] + [y], 0);
    assert out + [x] + [y] == out + [x, y];
  }

  /** Padding ends the data, whatever follows it. */
  lemma {:induction false} DecodeRemainder(s: seq<byte>, rest: seq<byte>, out: seq<byte>)
    requires 1 <= |s| <= 2
    ensures Decoded(Remainder(s) + rest, out, 0, 0) == Some(out + s)
  {
    if |s| == 1 {
      DecodeOne(s[0], rest, out);
      assert s == [s[0]];
    } else {
      DecodePair(s[0], s[1], rest, out);
      assert s == [s[0], s[1]];
    }
  }

  lemma {:induction false} DecodeBreak(rest: seq<byte>, out: seq<byte>, i: nat, broken: bool)
    ensures Decoded(BreakAfter(i, broken) + rest, out, 0, 0) == Decoded(rest, out, 0, 0)
  {
    if broken && i == 15 {
      assert (CRLF + rest)[1..][1..] == rest;
    } else {
      assert BreakAfter(i, broken) + rest == rest;
    }
  }

  lemma DecodeEnd(out: seq<byte>)
    ensures Decoded([], out, 0, 0) == Some(out)
  {
  }

  /** Decoding the encoding of any byte string, with or without its line breaks, gives it back. */
  lemma {:induction false} RoundTripFrom(x: seq<byte>, i: nat, broken: bool, out: seq<byte>)
    ensures Decoded(Encoded(x, i, broken), out, 0, 0) == Some(out + x)
    decreases |x|
  {
    hide Decoded, Tuplet, Remainder;
    if |x| >= 3 {
      var rest := Encoded(x[3..], NextInLine(i + 1), broken);
      DecodeTuplet(x[0], x[1], x[2], BreakAfter(i + 1, broken) + rest, out);
      DecodeBreak(rest, out + [x[0], x[1], x[2]], i + 1, broken);
      RoundTripFrom(x[3..], NextInLine(i + 1), broken, out + [x[0], x[1], x[2]]);
      assert out + [x[0], x[1], x[2]] + x[3..] == out + x;
    } else if x == [] {
      DecodeEnd(out);
      assert out + x == out;
      if broken {
        DecodeBreak([], out, 15, true);
        assert CRLF + [] == CRLF;
      }
    } else {
      DecodeRemainder(x, BreakAfter(i + 1, broken) + if broken then CRLF else [], out);
    }
  }

  lemma RoundTrip(x: seq<byte>)
    ensures Decoded(Encoded(x, 0, true), [], 0, 0) == Some(x)
  {
    RoundTripFrom(x, 0, true, []);
    assert [] + x == x;
  }

  // ----- the form the SASL responders send -----

  /** The characters above space, in order. */
  ghost function Stripped(s: seq<byte>): seq<byte> {
    if s == [] then [] else (if s[0] > SPC then [s[0]] else []) + Stripped(s[1..])
  }

  lemma {:induction false} StrippedAppend(s: seq<byte>, t: seq<byte>)
    ensures Stripped(s + t) == Stripped(s) + Stripped(t)
  {
    if s == [] {
      assert s + t == t;
    } else {
      assert (s + t)[1..] == s[1..] + t;
      StrippedAppend(s[1..], t);
    }
  }

  lemma {:induction false} StrippedKeeps(s: seq<byte>)
    requires forall k :: 0 <= k < |s| ==> s[k] > SPC
    ensures Stripped(s) == s
  {
    if s != [] {
      StrippedKeeps(s[1..]);
    }
  }

  lemma {:induction false} StrippedBreak(i: nat)
    ensures Stripped(CRLF) == [] == Stripped(BreakAfter(i, true))
  {
    var lf: seq<byte> := [LF];
    assert CRLF[1..] == lf && lf[1..] == [];
    assert Stripped(lf) == [];
  }

  /** Stripping takes out exactly the line breaks. */
  lemma {:induction false} StrippedEncoding(x: seq<byte>, i: nat)
    ensures Stripped(Encoded(x, i, true)) == Encoded(x, i, false)
    decreases |x|
  {
    StrippedBreak(i + 1);
    if |x| >= 3 {
      var rest := Encoded(x[3..], NextInLine(i + 1), true);
      StrippedAppend(Tuplet(x[0], x[1], x[2]), BreakAfter(i + 1, true) + rest);
      StrippedAppend(BreakAfter(i + 1, true), rest);
      StrippedKeeps(Tuplet(x[0], x[1], x[2]));
      StrippedEncoding(x[3..], NextInLine(i + 1));
    } else if x != [] {
      StrippedAppend(Remainder(x), BreakAfter(i + 1, true) + CRLF);
      StrippedAppend(BreakAfter(i + 1, true), CRLF);
      StrippedKeeps(Remainder(x));
    }
  }

  /** What the SASL responders send still decodes to the original. */
  lemma StrippedRoundTrip(x: seq<byte>)
    ensures Decoded(Stripped(Encoded(x, 0, true)), [], 0, 0) == Some(x)
  {
    StrippedEncoding(x, 0);
    RoundTripFrom(x, 0, false, []);
    assert [] + x == x;
  }

  // ----- the routines -----

  /** The tail of rfc822_binary: the last one or two bytes. */
  method EncodeRemainder(ret: array<byte>, d: nat, s: seq<byte>, i: nat) returns (d': nat)
    requires 1 <= |s| <= 2 && d + 4 + |BreakAfter(i + 1, true)| <= ret.Length
    modifies ret
    ensures d' == d + 4 + |BreakAfter(i + 1, true)|
            && ret[..d'] == old(ret[..d]) + Remainder(s) + BreakAfter(i + 1, true)
  {
    d' := Emit(ret, d, Remainder(s));
    d' := Emit(ret, d', BreakAfter(i + 1, true));
  }

  /** One round of the tuplet loop. */
  method EncodeTuplet(ret: array<byte>, d: nat, x: byte, y: byte, z: byte, i: nat) returns (d': nat, i': nat)
    requires d + 4 + |BreakAfter(i + 1, true)| <= ret.Length
    modifies ret
    ensures d' == d + 4 + |BreakAfter(i + 1, true)| && i' == NextInLine(i + 1)
    ensures ret[..d'] == old(ret[..d]) + Tuplet(x, y, z) + BreakAfter(i + 1, true)
  {
    d' := Emit(ret, d, Tuplet(x, y, z));
    i' := i + 1;
    if i' == 15 {
      i' := 0;
      d' := Emit(ret, d', CRLF);
    }
  }

  /** The encoding so far, one tuplet later. */
  lemma EncodedSplit(done: seq<byte>, s: seq<byte>, i: nat)
    requires |s| >= 3
    ensures |done| + 4 + |BreakAfter(i + 1, true)| <= |done + Encoded(s, i, true)|
    ensures done + Tuplet(s[0], s[1], s[2]) + BreakAfter(i + 1, true) + Encoded(s[3..], NextInLine(i + 1), true)
            == done + Encoded(s, i, true)
  {
    var tail := Encoded(s[3..], NextInLine(i + 1), true);
    assert done + (Tuplet(s[0], s[1], s[2]) + (BreakAfter(i + 1, true) + tail))
        == done + Tuplet(s[0], s[1], s[2]) + BreakAfter(i + 1, true) + tail;
  }

  /** The tuplet loop of rfc822_binary. */
  method EncodeTuplets(src: seq<byte>, ret: array<byte>) returns (s: nat, d: nat, i: nat)
    requires |Encoded(src, 0, true)| < ret.Length
    modifies ret
    ensures s <= |src| < s + 3 && d < ret.Length
    ensures ret[..d] + Encoded(src[s..], i, true) == Encoded(src, 0, true)
  {
    d, i, s := 0, 0, 0;
    while |src| - s >= 3
      invariant s <= |src| && d < ret.Length
      invariant ret[..d] + Encoded(src[s..], i, true) == Encoded(src, 0, true)
    {
      EncodedSplit(ret[..d], src[s..], i);
      assert src[s..][3..] == src[s + 3..];
      d, i := EncodeTuplet(ret, d, src[s], src[s + 1], src[s + 2], i);
      s := s + 3;
    }
  }

  /** rfc822_binary; the last assertion is the test before its fatal exit. */
  method EncodeBinary(src: seq<byte>) returns (ret: array<byte>, len: nat)
    ensures fresh(ret) && len == Predicted(|src|) < ret.Length && ret[len] == NUL
    ensures ret[..len] == Encoded(src, 0, true)
  {
    len := Predicted(|src|);
    ret := new byte[len + 1];
    LengthAsPredicted(src);
    var s, d, i := EncodeTuplets(src, ret);
    ghost var done := ret[..d];
    assert |done + Encoded(src[s..], i, true)| == len;
    if s < |src| {
      d := EncodeRemainder(ret, d, src[s..], i);
    }
    d := Emit(ret, d, CRLF);
    assert ret[..d] == done + Encoded(src[s..], i, true);
    ret[d] := NUL;
    assert d == len;
  }

  lemma StrippedNext(done: seq<byte>, s: seq<byte>)
    requires s != []
    ensures done + Stripped(s) == (if s[0] > SPC then done + [s[0]] else done) + Stripped(s[1..])
  {
  }

  lemma StrippedNone(s: seq<byte>)
    requires s == []
    ensures Stripped(s) == []
  {
  }

  /** The loop of imap_response that takes the line breaks out in place. */
  method StripInPlace(t: array<byte>, i: nat) returns (u: nat)
    requires i <= t.Length
    modifies t
    ensures u <= i && t[..u] == Stripped(old(t[..i]))
  {
    hide Stripped;
    u := 0;
    ghost var was := t[..i];
    for j := 0 to i
      invariant u <= j
      invariant t[j..i] == was[j..]
      invariant t[..u] + Stripped(was[j..]) == Stripped(was)
    {
      assert was[j..][1..] == was[j + 1..];
      assert t[j] == t[j..i][0] == was[j];
      assert t[j..i][1..] == t[j + 1..i];
      ghost var done := t[..u];
      StrippedNext(done, was[j..]);
      if t[j] > SPC {
        t[u] := t[j];
        assert t[..u + 1] == done + [was[j]];
        u := u + 1;
      }
    }
    assert was[i..] == [];
    StrippedNone(was[i..]);
  }

  /** The byte being put together. */
  ghost function Part(ret: array<byte>, d: nat, e: nat): byte
    requires d < ret.Length
    reads ret
  {
    if e == 0 then 0 else ret[d]
  }

  /** Storing one data character at quantum position e. */
  method Install(ret: array<byte>, d: nat, e: nat, c: nat) returns (d': nat, e': nat)
    requires d + 1 < ret.Length && GoodPart(Part(ret, d, e), e) && c < 64
    modifies ret
    ensures e' == (e + 1) % 4 && d' == if e == 0 then d else d + 1
    ensures ret[..d'] == Output(old(ret[..d]), old(Part(ret, d, e)), e, c)
    ensures Part(ret, d', e') == Started(e, c)
  {
    ghost var done := ret[..d];
    d' := d;
    if e == 0 {
      ret[d] := Started(0, c);                   // c << 2
    } else {
      var low := if e == 1 then c / 16 else if e == 2 then c / 4 else c;
      InstallBits(ret[d], e, low);
      ret[d] := Or(ret[d], low);
      assert ret[..d + 1] == done + [ret[d]];
      d' := d + 1;
      if e < 3 {
        ret[d'] := Started(e, c);                // c << 4, c << 6
      }
    }
    e' := (e + 1) % 4;
  }

  lemma {:induction false} InstallBits(part: byte, e: nat, low: nat)
    requires 1 <= e <= 3 && GoodPart(part, e)
    requires low < if e == 1 then 4 else if e == 2 then 16 else 64
    ensures Or(part, low) == part + low < 256
  {
    var k := 2 * e;
    var high := part / if e == 1 then 4 else if e == 2 then 16 else 64;
    assert ShiftUp(high, 1) == 2 * high;
    assert Power2(2) == 4 && ShiftUp(high, 2) == 4 * high && ShiftUp(high, 3) == 8 * high;
    assert Power2(4) == 16 && ShiftUp(high, 4) == 16 * high && ShiftUp(high, 5) == 32 * high;
    assert Power2(6) == 64 && ShiftUp(high, 6) == 64 * high;
    OrDisjoint(high, low, k);
  }

  /** After the padding: whether data characters follow, which is logged as a possible truncation. */
  method Drain(src: seq<byte>, s: nat) returns (data: bool)
    requires s <= |src|
    ensures data <==> exists k :: s <= k < |src| && Classify(src[k]).Data?
  {
    data := false;
    var i := s;
    while i < |src| && !data
      invariant s <= i <= |src|
      invariant data <==> exists k :: s <= k < i && Classify(src[k]).Data?
    {
      data := Classify(src[i]).Data?;
      i := i + 1;
    }
  }

  /** How far ret[d] is behind what was read. */
  function Slack(e: nat): nat
    requires e <= 3
  {
    if e == 0 then 0 else 4 - e
  }

  datatype Status = More | Done | Bad

  /** Decoded, one character later. */
  lemma DecodedStep(s: seq<byte>, out: seq<byte>, part: byte, e: nat)
    requires GoodPart(part, e) && s != []
    ensures var c := Classify(s[0]);
            && (c.White? ==> Decoded(s, out, part, e) == Decoded(s[1..], out, part, e))
            && (c.Junk? ==> Decoded(s, out, part, e) == None)
            && (c.Pad? ==> Decoded(s, out, part, e)
                           == if e == 3 || (e == 2 && |s| > 1 && s[1] == EQ) then Some(out) else None)
  {
  }

  lemma DecodedData(s: seq<byte>, out: seq<byte>, part: byte, e: nat)
    requires GoodPart(part, e) && s != [] && Classify(s[0]).Data?
    ensures var c := Classify(s[0]).value;
            Decoded(s, out, part, e) == Decoded(s[1..], Output(out, part, e, c), Started(e, c), (e + 1) % 4)
  {
  }

  /** One round of rfc822_base64. */
  method DecodeCharacter(src: seq<byte>, s: nat, ret: array<byte>, d: nat, e: nat)
    returns (d': nat, e': nat, status: Status)
    requires s < |src| && d + 1 < ret.Length && e <= 3 && GoodPart(Part(ret, d, e), e)
    modifies ret
    ensures d' <= d + 1 && e' <= 3 && 4 * d' + Slack(e') <= 4 * d + Slack(e) + 3
    ensures GoodPart(Part(ret, d', e'), e')
    ensures var was := old(Decoded(src[s..], ret[..d], Part(ret, d, e), e));
            match status
            case More => was == Decoded(src[s + 1..], ret[..d'], Part(ret, d', e'), e')
            case Done => was == Some(ret[..d'])
            case Bad => was == None
  {
    d', e', status := d, e, More;
    ghost var rest := src[s..];
    assert rest[1..] == src[s + 1..];
    DecodedStep(rest, ret[..d], Part(ret, d, e), e);
    match Classify(src[s]) {
      case Data(v) =>
        DecodedData(rest, ret[..d], Part(ret, d, e), e);
        d', e' := Install(ret, d, e, v);
      case White =>
      case Pad =>
        if e == 3 {
          var data := Drain(src, s + 1);
          status := Done;
        } else if e == 2 && s + 1 < |src| && src[s + 1] == EQ {
          // the second = is read in quantum position 3
          var data := Drain(src, s + 2);
          status := Done;
        } else {
          status := Bad;
        }
      case Junk =>
        status := Bad;
    }
  }

  /** rfc822_base64; ok is false where it returns NIL. */
  method DecodeBase64(src: seq<byte>) returns (ok: bool, ret: array<byte>, len: nat)
    ensures fresh(ret) && ret.Length == 4 + |src| * 3 / 4 + 1 && len < ret.Length
    ensures Decoded(src, [], 0, 0) == if ok then Some(ret[..len]) else None
    ensures ok ==> ret[len] == NUL
  {
    ret := new byte[4 + |src| * 3 / 4 + 1](i => NUL);
    len := 0;
    var d: nat, e: nat, s: nat, status := 0, 0, 0, More;
    while s < |src| && status == More
      invariant s <= |src| && e <= 3 && 4 * d + Slack(e) <= 3 * s
      invariant GoodPart(Part(ret, d, e), e)
      invariant match status
                case More => Decoded(src[s..], ret[..d], Part(ret, d, e), e) == Decoded(src, [], 0, 0)
                case Done => Decoded(src, [], 0, 0) == Some(ret[..d])
                case Bad => Decoded(src, [], 0, 0) == None
    {
      d, e, status := DecodeCharacter(src, s, ret, d, e);
      s := s + 1;
    }
    if status == Bad {
      return false, ret, 0;
    }
    assert status == More ==> src[s..] == [];
    ok, len := true, d;
    ret[d] := NUL;
  }
}
