/** What quoted-printable text is (section 6.7 of RFC 2045), told byte by byte, and that the encoder writes nothing
    else and no more quotes than it has to. */
module QuotedText {
  import opened Bytes
  import opened QuotedPrintable

  /** One of 0123456789ABCDEF. */
  predicate UpperHex(c: byte) {
    48 <= c <= 57 || 65 <= c <= 70
  }

  predicate StartsBreak(s: seq<byte>) {
    |s| >= 2 && s[0] == 13 && s[1] == 10
  }

  /** After an = come two hexadecimal digits or a line break. */
  predicate StartsQuote(s: seq<byte>) {
    |s| >= 3 && s[0] == 61 && ((UpperHex(s[1]) && UpperHex(s[2])) || StartsBreak(s[1..]))
  }

  /** The grammar. No space stands at the end of a line. */
  ghost predicate IsText(s: seq<byte>) {
    if s == [] then true
    else if s[0] == 61 then StartsQuote(s) && IsText(s[3..])
    else if s[0] == 13 then StartsBreak(s) && IsText(s[2..])
    else 32 <= s[0] <= 126 && (s[0] == 32 && |s| > 1 ==> s[1] != 13) && IsText(s[1..])
  }

  /** The same at any place in the text. */
  ghost predicate FineAt(s: seq<byte>, i: nat)
    requires i < |s|
  {
    && (32 <= s[i] <= 126 || StartsBreak(s[i..]) || (i > 0 && StartsBreak(s[i - 1..])))
    && (s[i] == 61 ==> StartsQuote(s[i..]))
    && (s[i] == 32 && i + 1 < |s| ==> s[i + 1] != 13)
  }

  lemma FineLater(s: seq<byte>, k: nat, i: nat)
    requires k <= i < |s| && FineAt(s[k..], i - k)
    ensures FineAt(s, i)
  {
    assert s[k..][i - k..] == s[i..];
    if i > k {
      assert s[k..][i - k - 1..] == s[i - 1..];
    }
  }

  lemma {:induction false} TextIsFine(s: seq<byte>, i: nat)
    requires IsText(s) && i < |s|
    ensures FineAt(s, i)
    decreases |s|
  {
    assert s[0..] == s;
    var k := if s[0] == 61 then 3 else if s[0] == 13 then 2 else 1;
    if i >= k {
      TextIsFine(s[k..], i - k);
      FineLater(s, k, i);
    } else if s[0] == 61 && i > 0 {
      assert s[1..][0] == s[1] && s[1..][1] == s[2];
      QuoteIsFine(s, i);
    } else if s[0] == 13 && i > 0 {
      assert s[i - 1..] == s;
    }
  }

  lemma QuoteIsFine(s: seq<byte>, i: nat)
    requires StartsQuote(s) && 1 <= i <= 2
    ensures FineAt(s, i)
  {
    assert s[1..][0] == s[1] && s[1..][1] == s[2];
    if !UpperHex(s[1]) {
      assert i == 2 ==> s[i - 1..] == s[1..];
    }
  }

  // ----- the encoder -----

  lemma TextItem(c: byte, next: byte, rest: seq<byte>)
    requires IsText(rest) && (c == 32 && rest != [] && rest[0] == 13 ==> next == 13)
    ensures IsText(Item(c, next) + rest)
  {
    var s := Item(c, next) + rest;
    if MustQuote(c, next) {
      assert s[3..] == rest;
      assert UpperHex(HexDigit(c / 16)) && UpperHex(HexDigit(c % 16));
    } else {
      assert s[1..] == rest;
    }
  }

  lemma TextSoft(rest: seq<byte>)
    requires IsText(rest)
    ensures IsText(SOFT + rest)
  {
    var s := SOFT + rest;
    assert s[3..] == rest;
    assert s[1..][0] == 13 && s[1..][1] == 10;
  }

  /** A line break in the text comes from one in the source. */
  lemma {:induction false} BreakFromSource(s: seq<byte>, lp: nat, after: byte)
    ensures Encoded(s, lp, after) != [] && Encoded(s, lp, after)[0] == 13 ==> LineBreak(s)
  {
    if s != [] && !LineBreak(s) {
      var item := Item(s[0], Next(s, after));
      assert item[0] != 13 && (BreakBefore(lp, |item|) == [] || BreakBefore(lp, |item|)[0] == 61);
    }
  }

  /** Whatever the bytes, the encoding is text. */
  lemma {:induction false} EncodedIsText(s: seq<byte>, lp: nat, after: byte)
    ensures IsText(Encoded(s, lp, after))
    decreases |s|
  {
    if s == [] {
    } else if LineBreak(s) {
      var rest := Encoded(s[2..], 0, after);
      EncodedIsText(s[2..], 0, after);
      assert ([CR, LF] + rest)[2..] == rest;
    } else {
      hide Item, MustQuote, IsText;
      var (c, next) := (s[0], Next(s, after));
      var item := Item(c, next);
      var rest := Encoded(s[1..], LineAfter(lp, |item|), after);
      EncodedIsText(s[1..], LineAfter(lp, |item|), after);
      BreakFromSource(s[1..], LineAfter(lp, |item|), after);
      TextItem(c, next, rest);
      if lp + |item| > MAXL {
        TextSoft(item + rest);
      } else {
        assert [] + (item + rest) == item + rest;
      }
    }
  }

  /** At every place of the encoding. */
  lemma EncodedIsFine(s: seq<byte>, after: byte)
    ensures forall i :: 0 <= i < |Encoded(s, 0, after)| ==> FineAt(Encoded(s, 0, after), i)
  {
    EncodedIsText(s, 0, after);
    forall i: nat | i < |Encoded(s, 0, after)|
      ensures FineAt(Encoded(s, 0, after), i)
    {
      TextIsFine(Encoded(s, 0, after), i);
    }
  }

  // ----- no quotes and no breaks without need -----

  const HEX := "0123456789ABCDEF"

  /** The bytes of s without soft breaks: a line break for itself, a printable byte other than = for itself unless it is
      a space before a carriage return, any other byte as = with its two digits. */
  ghost function Spelled(s: seq<byte>, after: byte): seq<byte> {
    if s == [] then []
    else if StartsBreak(s) then [13, 10] + Spelled(s[2..], after)
    else if 33 <= s[0] <= 126 && s[0] != 61 then [s[0]] + Spelled(s[1..], after)
    else if s[0] == 32 && (if |s| > 1 then s[1] else after) != 13 then [32] + Spelled(s[1..], after)
    else [61, HEX[s[0] / 16] as byte, HEX[s[0] % 16] as byte] + Spelled(s[1..], after)
  }

  predicate StartsSoft(s: seq<byte>) {
    |s| >= 3 && s[0] == 61 && s[1] == 13 && s[2] == 10
  }

  ghost function Unbroken(s: seq<byte>): seq<byte> {
    if s == [] then [] else if StartsSoft(s) then Unbroken(s[3..]) else [s[0]] + Unbroken(s[1..])
  }

  lemma HexIs(n: nat)
    requires n < 16
    ensures HexDigit(n) == HEX[n] as byte && HexDigit(n) != 61 && HexDigit(n) != 13
  {
  }

  lemma {:induction false} UnbrokenItem(c: byte, next: byte, rest: seq<byte>)
    ensures Unbroken(Item(c, next) + rest) == Item(c, next) + Unbroken(rest)
  {
    HexIs(c / 16);
    HexIs(c % 16);
    if MustQuote(c, next) {
      var (h, l) := (HexDigit(c / 16), HexDigit(c % 16));
      var s := [EQ, h, l] + rest;
      assert s[1..] == [h] + ([l] + rest);
      UnbrokenOne(h, [l] + rest);
      UnbrokenOne(l, rest);
      assert [EQ] + ([h] + ([l] + Unbroken(rest))) == [EQ, h, l] + Unbroken(rest);
    } else {
      UnbrokenOne(c, rest);
    }
  }

  lemma UnbrokenOne(c: byte, rest: seq<byte>)
    requires c != 61
    ensures Unbroken([c] + rest) == [c] + Unbroken(rest)
  {
    assert ([c] + rest)[1..] == rest;
  }

  lemma ItemSpelled(s: seq<byte>, after: byte)
    requires s != [] && !StartsBreak(s)
    ensures Spelled(s, after) == Item(s[0], Next(s, after)) + Spelled(s[1..], after)
  {
    HexIs(s[0] / 16);
    HexIs(s[0] % 16);
  }

  lemma UnbrokenBreak(lp: nat, n: nat, rest: seq<byte>)
    ensures Unbroken(BreakBefore(lp, n) + rest) == Unbroken(rest)
  {
    if lp + n > MAXL {
      assert (SOFT + rest)[3..] == rest;
    } else {
      assert [] + rest == rest;
    }
  }

  lemma UnbrokenLine(rest: seq<byte>)
    ensures Unbroken([CR, LF] + rest) == [CR, LF] + Unbroken(rest)
  {
    var s := [CR, LF] + rest;
    assert s[1..] == [LF] + rest && s[1..][1..] == rest;
    assert [CR] + ([LF] + Unbroken(rest)) == [CR, LF] + Unbroken(rest);
  }

  /** But for its soft breaks the encoding spells the bytes one by one. */
  lemma {:induction false} EncodedSpells(s: seq<byte>, lp: nat, after: byte)
    ensures Unbroken(Encoded(s, lp, after)) == Spelled(s, after)
    decreases |s|
  {
    if s == [] {
    } else if LineBreak(s) {
      EncodedSpells(s[2..], 0, after);
      UnbrokenLine(Encoded(s[2..], 0, after));
    } else {
      hide Item, Unbroken, Spelled;
      var item := Item(s[0], Next(s, after));
      var rest := Encoded(s[1..], LineAfter(lp, |item|), after);
      EncodedSpells(s[1..], LineAfter(lp, |item|), after);
      UnbrokenBreak(lp, |item|, item + rest);
      UnbrokenItem(s[0], Next(s, after), rest);
      ItemSpelled(s, after);
    }
  }

  /** A soft break stands only where no quote would have fitted the 75 characters before it any more. */
  ghost predicate BreaksLate(s: seq<byte>, col: nat) {
    if s == [] then true
    else if StartsSoft(s) then col >= 73 && BreaksLate(s[3..], 0)
    else if StartsBreak(s) then BreaksLate(s[2..], 0)
    else BreaksLate(s[1..], col + 1)
  }

  lemma {:induction false} ItemBreaksLate(c: byte, next: byte, rest: seq<byte>, col: nat)
    requires BreaksLate(rest, col + |Item(c, next)|) && !(c == 13 && !MustQuote(c, next))
    ensures BreaksLate(Item(c, next) + rest, col)
  {
    var item := Item(c, next);
    var s := item + rest;
    HexIs(c / 16);
    HexIs(c % 16);
    assert s[1..] == item[1..] + rest;
    if MustQuote(c, next) {
      assert s[1..][1..] == item[2..] + rest && s[1..][1..][1..] == rest;
    } else {
      assert s[1..] == rest;
    }
  }

  lemma {:induction false} EncodedBreaksLate(s: seq<byte>, lp: nat, after: byte)
    requires lp <= 75
    ensures BreaksLate(Encoded(s, lp, after), lp)
    decreases |s|
  {
    if s == [] {
    } else if LineBreak(s) {
      EncodedBreaksLate(s[2..], 0, after);
      assert ([CR, LF] + Encoded(s[2..], 0, after))[2..] == Encoded(s[2..], 0, after);
    } else {
      hide Item, BreaksLate;
      var item := Item(s[0], Next(s, after));
      var rest := Encoded(s[1..], LineAfter(lp, |item|), after);
      EncodedBreaksLate(s[1..], LineAfter(lp, |item|), after);
      ItemBreaksLate(s[0], Next(s, after), rest, if lp + |item| > MAXL then 0 else lp);
      BreakIsLate(lp, |item|, item + rest);
    }
  }

  lemma BreakIsLate(lp: nat, n: nat, rest: seq<byte>)
    requires n <= 3 && BreaksLate(rest, if lp + n > MAXL then 0 else lp)
    ensures BreaksLate(BreakBefore(lp, n) + rest, lp)
  {
    if lp + n > MAXL {
      assert (SOFT + rest)[3..] == rest;
    } else {
      assert [] + rest == rest;
    }
  }
}
