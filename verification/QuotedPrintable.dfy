/** Quoted-printable: rfc822_8bit and rfc822_qprint (section 6.7 of RFC 2045). */
module QuotedPrintable {
  import opened Buffers
  import opened Bytes

  const MAXL: nat := 75   // the 76th position is only used by a continuation =

  predicate IsControl(c: byte) {
    c < 32 || c == 127
  }

  function HexDigit(n: nat): (c: byte)
    requires n < 16
  {
    if n < 10 then 48 + n else 55 + n
  }

  predicate IsDigit(c: byte) {
    48 <= c <= 57
  }

  predicate IsHex(c: byte) {
    IsDigit(c) || 65 <= c <= 70 || 97 <= c <= 102
  }

  function HexValue(c: byte): (n: nat)
    requires IsHex(c)
    ensures n < 16
  {
    if IsDigit(c) then c - 48 else if c <= 70 then c - 55 else c - 87
  }

  /** Quoting is required for c when next follows it. */
  predicate MustQuote(c: byte, next: byte) {
    IsControl(c) || c >= 128 || c == EQ || (c == SPC && next == CR)
  }

  function Quoted(c: byte): seq<byte> {
    [EQ, HexDigit(c / 16), HexDigit(c % 16)]
  }

  /** How c is written when next follows it. */
  function Item(c: byte, next: byte): (r: seq<byte>)
    ensures |r| == if MustQuote(c, next) then 3 else 1
  {
    if MustQuote(c, next) then Quoted(c) else [c]
  }

  const SOFT: seq<byte> := [EQ, CR, LF]

  /** The byte after the first of s; the encoder looks one byte past the end of its source. */
  function Next(s: seq<byte>, after: byte): byte
    requires s != []
  {
    if |s| > 1 then s[1] else after
  }

  predicate LineBreak(s: seq<byte>) {
    |s| > 1 && s[0] == CR && s[1] == LF
  }

  // ----- what the encoder writes -----

  /** The soft break, if any, before an item of n characters on a line already lp characters long. */
  function BreakBefore(lp: nat, n: nat): seq<byte> {
    if lp + n > MAXL then SOFT else []
  }

  function LineAfter(lp: nat, n: nat): nat {
    if lp + n > MAXL then n else lp + n
  }

  /** The encoding of s from a line already lp characters long. */
  ghost function Encoded(s: seq<byte>, lp: nat, after: byte): seq<byte> {
    if s == [] then []
    else if LineBreak(s) then [CR, LF] + Encoded(s[2..], 0, after)
    else
      var item := Item(s[0], Next(s, after));
      BreakBefore(lp, |item|) + (item + Encoded(s[1..], LineAfter(lp, |item|), after))
  }

  /** No line of s, the first one starting in column col, is longer than 76 characters. */
  ghost predicate LinesFit(s: seq<byte>, col: nat) {
    if s == [] then true
    else if LineBreak(s) then LinesFit(s[2..], 0)
    else col + 1 <= MAXL + 1 && LinesFit(s[1..], col + 1)
  }

  lemma LinesFitItem(item: seq<byte>, rest: seq<byte>, col: nat)
    requires |item| == 1 || |item| == 3
    requires forall i :: 0 <= i < |item| ==> item[i] != CR
    requires col + |item| <= MAXL + 1 && LinesFit(rest, col + |item|)
    ensures LinesFit(item + rest, col)
  {
    var s := item + rest;
    assert s[1..] == item[1..] + rest;
    if |item| == 3 {
      assert s[1..][1..] == item[2..] + rest;
      assert s[1..][1..][1..] == rest;
    } else {
      assert item[1..] + rest == rest;
    }
  }

  lemma LinesFitSoft(rest: seq<byte>, col: nat)
    requires col <= MAXL && LinesFit(rest, 0)
    ensures LinesFit(SOFT + rest, col)
  {
    var broken := [CR, LF] + rest;
    assert broken[2..] == rest;
    assert (SOFT + rest)[1..] == broken;
  }

  /** No output line exceeds 76 characters. */
  lemma {:induction false} EncodedLinesFit(s: seq<byte>, lp: nat, after: byte)
    requires lp <= MAXL
    ensures LinesFit(Encoded(s, lp, after), lp)
    decreases |s|
  {
    if s == [] {
    } else if LineBreak(s) {
      var rest := Encoded(s[2..], 0, after);
      EncodedLinesFit(s[2..], 0, after);
      assert ([CR, LF] + rest)[2..] == rest;
    } else {
      var item := Item(s[0], Next(s, after));
      var rest := Encoded(s[1..], LineAfter(lp, |item|), after);
      EncodedLinesFit(s[1..], LineAfter(lp, |item|), after);
      if lp + |item| > MAXL {
        LinesFitItem(item, rest, 0);
        LinesFitSoft(item + rest, lp);
      } else {
        LinesFitItem(item, rest, lp);
        assert [] + (item + rest) == item + rest;
      }
    }
  }

  /** A line of lp characters took at least lp / 3 source bytes, so there is at most one soft break
      for every 25 of them: k is the number of source bytes on the current line. */
  lemma {:induction false} EncodedSize(s: seq<byte>, lp: nat, after: byte, k: nat)
    requires lp <= 3 * k
    ensures |Encoded(s, lp, after)| <= 3 * |s| + 3 * ((k + |s|) / 25)
    decreases |s|
  {
    if s == [] {
    } else if LineBreak(s) {
      EncodedSize(s[2..], 0, after, 0);
    } else {
      var item := Item(s[0], Next(s, after));
      if lp + |item| > MAXL {
        EncodedSize(s[1..], |item|, after, 1);
      } else {
        EncodedSize(s[1..], lp + |item|, after, k + 1);
      }
    }
  }

  /** The allocation is always large enough for the output and its terminator. */
  function Allocation(n: nat): nat {
    3 * n + 3 * ((3 * n) / MAXL + 1)
  }

  lemma EncodedFits(s: seq<byte>, after: byte)
    ensures |Encoded(s, 0, after)| + 1 <= Allocation(|s|)
  {
    EncodedSize(s, 0, after, 0);
    assert (3 * |s|) / 75 == |s| / 25;
  }

  // ----- what the decoder reads -----

  /** One step of the decoder: how many source bytes it takes, and the output and its non-space mark
      afterwards. */
  datatype Step = Step(taken: nat, out: seq<byte>, mark: nat)

  function Decode1(s: seq<byte>, out: seq<byte>, mark: nat): (r: Step)
    requires s != [] && mark <= |out|
    ensures 1 <= r.taken <= |s| && r.mark <= |r.out|
    ensures |r.out| <= |out| + r.taken
  {
    var c := s[0];
    if c == EQ then
      if |s| == 1 then Step(1, out, mark)
      else if s[1] == NUL then Step(1, out, mark)
      else if s[1] == CR then Step(if |s| > 2 && s[2] == LF then 3 else 2, out, |out|)
      else if s[1] == LF then Step(2, out, |out|)
      else if IsHex(s[1]) && |s| > 2 && IsHex(s[2])
      then Step(3, out + [HexValue(s[2]) + HexValue(s[1]) * 16], |out| + 1)
      else Step(if IsHex(s[1]) && |s| > 2 then 3 else 2, out + [EQ, s[1]], |out| + 2)
    else if c == SPC then Step(1, out + [c], mark)
    else if c == CR || c == LF then Step(1, out[..mark] + [c], mark + 1)
    else Step(1, out + [c], |out| + 1)
  }

  /** The decoder from a given output on. */
  ghost function Decoded(s: seq<byte>, out: seq<byte>, mark: nat): (r: seq<byte>)
    requires mark <= |out|
    decreases |s|
  {
    if s == [] then out
    else
      var n := Decode1(s, out, mark);
      Decoded(s[n.taken..], n.out, n.mark)
  }

  /** Decoding never yields more bytes than it was given. */
  lemma {:induction false} DecodedSize(s: seq<byte>, out: seq<byte>, mark: nat)
    requires mark <= |out|
    ensures |Decoded(s, out, mark)| <= |out| + |s|
    decreases |s|
  {
    if s != [] {
      var n := Decode1(s, out, mark);
      DecodedSize(s[n.taken..], n.out, n.mark);
    }
  }

  // ----- round trip -----

  /** The non-space mark once the item for c is read. */
  function MarkAfter(c: byte, next: byte, out: seq<byte>, mark: nat): (r: nat)
    requires mark <= |out|
    ensures r <= |out| + 1
  {
    if !MustQuote(c, next) && c == SPC then mark else |out| + 1
  }

  lemma QuotedIsHex(c: byte)
    ensures var (h, l) := (HexDigit(c / 16), HexDigit(c % 16));
            IsHex(h) && IsHex(l) && h > CR && HexValue(l) + HexValue(h) * 16 == c
  {
  }

  lemma DecodeItem(c: byte, next: byte, rest: seq<byte>, out: seq<byte>, mark: nat)
    requires mark <= |out| && !(c == CR && next == LF && !MustQuote(c, next))
    ensures Decoded(Item(c, next) + rest, out, mark) == Decoded(rest, out + [c], MarkAfter(c, next, out, mark))
  {
    if MustQuote(c, next) {
      QuotedIsHex(c);
      hide HexDigit, HexValue, IsHex;
      var s := Quoted(c) + rest;
      assert s[3..] == rest;
    } else {
      assert ([c] + rest)[1..] == rest;
    }
  }

  lemma DecodeSoft(rest: seq<byte>, out: seq<byte>, mark: nat, lp: nat, n: nat)
    requires mark <= |out|
    ensures Decoded(BreakBefore(lp, n) + rest, out, mark) == Decoded(rest, out, if lp + n > MAXL then |out| else mark)
  {
    if lp + n > MAXL {
      assert (SOFT + rest)[3..] == rest;
    } else {
      assert [] + rest == rest;
    }
  }

  lemma {:induction false} DecodeBreakChar(c: byte, rest: seq<byte>, out: seq<byte>)
    requires c == CR || c == LF
    ensures Decoded([c] + rest, out, |out|) == Decoded(rest, out + [c], |out| + 1)
  {
    assert ([c] + rest)[1..] == rest;
    assert out[..|out|] == out;
  }

  lemma {:induction false} DecodeBreak(rest: seq<byte>, out: seq<byte>)
    ensures Decoded([CR, LF] + rest, out, |out|) == Decoded(rest, out + [CR, LF], |out| + 2)
  {
    hide Decoded;
    assert [CR, LF] + rest == [CR] + ([LF] + rest);
    DecodeBreakChar(CR, [LF] + rest, out);
    DecodeBreakChar(LF, rest, out + [CR]);
    assert out + [CR] + [LF] == out + [CR, LF];
  }

  /** out[mark..] is a run of spaces that a line break would strip; the encoder never puts one there. */
  lemma {:induction false} RoundTripFrom(s: seq<byte>, lp: nat, after: byte, out: seq<byte>, mark: nat)
    requires mark <= |out| && (LineBreak(s) ==> mark == |out|)
    ensures Decoded(Encoded(s, lp, after), out, mark) == out + s
    decreases |s|
  {
    if s == [] {
      assert out + s == out;
    } else if LineBreak(s) {
      RoundTripBreak(s, lp, after, out);
    } else {
      RoundTripItem(s, lp, after, out, mark);
    }
  }

  lemma {:induction false} RoundTripBreak(s: seq<byte>, lp: nat, after: byte, out: seq<byte>)
    requires LineBreak(s)
    ensures Decoded(Encoded(s, lp, after), out, |out|) == out + s
    decreases |s|, 0
  {
    var rest := Encoded(s[2..], 0, after);
    RoundTripFrom(s[2..], 0, after, out + [CR, LF], |out| + 2);
    calc {
      Decoded(Encoded(s, lp, after), out, |out|);
      Decoded([CR, LF] + rest, out, |out|);
      { DecodeBreak(rest, out); }
      Decoded(rest, out + [CR, LF], |out| + 2);
      out + [CR, LF] + s[2..];
      { assert s == [CR, LF] + s[2..]; }
      out + s;
    }
  }

  lemma {:induction false} RoundTripItem(s: seq<byte>, lp: nat, after: byte, out: seq<byte>, mark: nat)
    requires mark <= |out| && s != [] && !LineBreak(s)
    ensures Decoded(Encoded(s, lp, after), out, mark) == out + s
    decreases |s|, 0
  {
    hide Decoded, Item, Decode1, MustQuote;
    var next := Next(s, after);
    var item := Item(s[0], next);
    var m0 := if lp + |item| > MAXL then |out| else mark;
    var rest := Encoded(s[1..], LineAfter(lp, |item|), after);
    DecodeSoft(item + rest, out, mark, lp, |item|);
    NotABreak(s, after);
    DecodeItem(s[0], next, rest, out, m0);
    if LineBreak(s[1..]) {
      SpaceIsMarked(s, after);
    }
    RoundTripFrom(s[1..], LineAfter(lp, |item|), after, out + [s[0]], MarkAfter(s[0], next, out, m0));
    assert out + [s[0]] + s[1..] == out + s;
  }

  lemma NotABreak(s: seq<byte>, after: byte)
    requires s != [] && !LineBreak(s)
    ensures !(s[0] == CR && Next(s, after) == LF && !MustQuote(s[0], Next(s, after)))
  {
  }

  /** A space before a line break is quoted. */
  lemma SpaceIsMarked(s: seq<byte>, after: byte)
    requires s != [] && LineBreak(s[1..])
    ensures s[0] == SPC ==> MustQuote(s[0], Next(s, after))
  {
  }

  /** Decoding the encoding of any byte string gives it back. */
  lemma RoundTrip(x: seq<byte>, after: byte)
    ensures Decoded(Encoded(x, 0, after), [], 0) == x
  {
    RoundTripFrom(x, 0, after, [], 0);
  }

  // ----- the routines -----

  /** One character of rfc822_8bit that is no part of a line break. */
  method EncodeItem(ret: array<byte>, d: nat, lp: nat, c: byte, next: byte) returns (d': nat, lp': nat)
    requires d + |BreakBefore(lp, |Item(c, next)|)| + |Item(c, next)| <= ret.Length
    modifies ret
    ensures lp' == LineAfter(lp, |Item(c, next)|) && d' <= ret.Length
    ensures ret[..d'] == old(ret[..d]) + BreakBefore(lp, |Item(c, next)|) + Item(c, next)
  {
    var quote := MustQuote(c, next);
    d', lp' := d, lp + if quote then 3 else 1;
    if lp' > MAXL {
      d' := Emit(ret, d', SOFT);
      lp' := if quote then 3 else 1;
    }
    d' := Emit(ret, d', Item(c, next));
  }

  /** The encoding so far, one item later. */
  lemma EncodedSplit(done: seq<byte>, rest: seq<byte>, lp: nat, after: byte)
    requires rest != [] && !LineBreak(rest)
    ensures var item := Item(rest[0], Next(rest, after));
            && |done| + |BreakBefore(lp, |item|)| + |item| <= |done + Encoded(rest, lp, after)|
            && done + BreakBefore(lp, |item|) + item + Encoded(rest[1..], LineAfter(lp, |item|), after)
               == done + Encoded(rest, lp, after)
  {
    var item := Item(rest[0], Next(rest, after));
    var tail := Encoded(rest[1..], LineAfter(lp, |item|), after);
    assert done + (BreakBefore(lp, |item|) + (item + tail)) == done + BreakBefore(lp, |item|) + item + tail;
  }

  lemma EncodedBreak(done: seq<byte>, rest: seq<byte>, lp: nat, after: byte)
    requires LineBreak(rest)
    ensures |done| + 2 <= |done + Encoded(rest, lp, after)|
    ensures done + [CR, LF] + Encoded(rest[2..], 0, after) == done + Encoded(rest, lp, after)
  {
    assert done + ([CR, LF] + Encoded(rest[2..], 0, after)) == done + [CR, LF] + Encoded(rest[2..], 0, after);
  }

  /** One round of rfc822_8bit: n source bytes are taken. */
  method EncodeStep(ret: array<byte>, d: nat, lp: nat, rest: seq<byte>, after: byte)
    returns (d': nat, lp': nat, n: nat)
    requires rest != [] && d <= ret.Length && |ret[..d] + Encoded(rest, lp, after)| < ret.Length
    modifies ret
    ensures 1 <= n <= |rest| && d' <= ret.Length
    ensures ret[..d'] + Encoded(rest[n..], lp', after) == old(ret[..d]) + Encoded(rest, lp, after)
  {
    hide Encoded, MustQuote;
    var next := if |rest| > 1 then rest[1] else after;
    if rest[0] == CR && next == LF && |rest| > 1 {
      EncodedBreak(ret[..d], rest, lp, after);
      d' := Emit(ret, d, [CR, LF]);
      lp', n := 0, 2;
    } else {
      EncodedSplit(ret[..d], rest, lp, after);
      d', lp' := EncodeItem(ret, d, lp, rest[0], next);
      n := 1;
    }
  }

  /** rfc822_8bit: len bytes of ret are the encoding, and a terminator follows them. */
  method Encode8Bit(src: seq<byte>, after: byte) returns (ret: array<byte>, len: nat)
    ensures fresh(ret) && ret.Length == Allocation(|src|) && len < ret.Length && ret[len] == NUL
    ensures ret[..len] == Encoded(src, 0, after)
  {
    ret := new byte[Allocation(|src|)];
    EncodedFits(src, after);
    var d: nat, lp: nat, rest := 0, 0, src;
    while rest != []
      invariant d <= ret.Length && ret[..d] + Encoded(rest, lp, after) == Encoded(src, 0, after)
      decreases |rest|
    {
      var n;
      d, lp, n := EncodeStep(ret, d, lp, rest, after);
      rest := rest[n..];
    }
    ret[d] := NUL;
    len := d;
  }

  /** One round of rfc822_qprint: s, d and t are the source, destination and non-space pointers. */
  method DecodeStep(src: seq<byte>, ret: array<byte>, s: nat, d: nat, t: nat) returns (s': nat, d': nat, t': nat)
    requires t <= d <= s < |src| < ret.Length
    modifies ret
    ensures var n := Decode1(src[s..], old(ret[..d]), t);
            s' == s + n.taken && d' <= ret.Length && ret[..d'] == n.out && t' == n.mark
  {
    s', d', t' := s + 1, d, t;
    var c := src[s];
    if c == EQ {
      if s' < |src| {
        c := src[s'];
        s' := s' + 1;
        if c == NUL {
          s' := s' - 1;
        } else if c == CR {
          if s' < |src| && src[s'] == LF {
            s' := s' + 1;
          }
          t' := d';
        } else if c == LF {
          t' := d';
        } else {
          var e := NUL;
          if IsHex(c) && s' < |src| {
            e := src[s'];
            s' := s' + 1;
          }
          d' := Emit(ret, d', if IsHex(c) && IsHex(e) then [HexValue(e) + HexValue(c) * 16] else [EQ, c]);
          t' := d';
        }
      }
    } else if c == SPC {
      d' := Emit(ret, d', [c]);
    } else {
      if c == CR || c == LF {
        d' := t';
      }
      d' := Emit(ret, d', [c]);
      t' := d';
    }
  }

  lemma DecodedMore(s: seq<byte>, out: seq<byte>, mark: nat)
    requires s != [] && mark <= |out|
    ensures var n := Decode1(s, out, mark); Decoded(s, out, mark) == Decoded(s[n.taken..], n.out, n.mark)
  {
  }

  lemma DecodedEnd(out: seq<byte>, mark: nat)
    requires mark <= |out|
    ensures Decoded([], out, mark) == out
  {
  }

  /** rfc822_qprint: the first len bytes of ret are the decoded text, and a terminator follows them. */
  method DecodeQPrint(src: seq<byte>) returns (ret: array<byte>, len: nat)
    ensures fresh(ret) && ret.Length == |src| + 1 && len < ret.Length && ret[len] == NUL
    ensures ret[..len] == Decoded(src, [], 0)
  {
    hide Decoded, Decode1;
    ret := new byte[|src| + 1];
    var d: nat, t: nat, s: nat := 0, 0, 0;
    assert src[0..] == src;
    while s < |src|
      invariant s <= |src| && t <= d <= s
      invariant Decoded(src[s..], ret[..d], t) == Decoded(src, [], 0)
      decreases |src| - s
    {
      ghost var rest := src[s..];
      ghost var n := Decode1(rest, ret[..d], t);
      assert rest[n.taken..] == src[s + n.taken..];
      DecodedMore(rest, ret[..d], t);
      s, d, t := DecodeStep(src, ret, s, d, t);
    }
    ret[d] := NUL;
    len := d;
    assert src[|src|..] == [];
    DecodedEnd(ret[..d], t);
  }
}
