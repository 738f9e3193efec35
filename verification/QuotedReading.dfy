/** What the quoted-printable decoder makes of any text, not only of what the encoder writes: laws that say how a text
    is read piece by piece. */
module QuotedReading {
  import opened Bytes
  import opened QuotedPrintable

  // ----- trailing spaces -----

  /** Nothing but spaces up to the next CR or LF. */
  ghost predicate BreakAhead(s: seq<byte>) {
    exists n: nat :: n < |s| && (s[n] == 13 || s[n] == 10) && forall i :: 0 <= i < n ==> s[i] == 32
  }

  /** s without the spaces directly before a CR or LF. */
  ghost function Trimmed(s: seq<byte>): seq<byte> {
    if s == [] then [] else if s[0] == 32 && BreakAhead(s) then Trimmed(s[1..]) else [s[0]] + Trimmed(s[1..])
  }

  lemma {:induction false} AheadLater(s: seq<byte>)
    requires s != []
    ensures BreakAhead(s) <==> s[0] == 13 || s[0] == 10 || (s[0] == 32 && BreakAhead(s[1..]))
  {
    if s[0] == 32 && BreakAhead(s[1..]) {
      var t := s[1..];
      var n: nat :| n < |t| && (t[n] == 13 || t[n] == 10) && forall i :: 0 <= i < n ==> t[i] == 32;
      assert forall i :: 0 < i < n + 1 ==> s[i] == t[i - 1];
      assert s[n + 1] == t[n];
    }
    if BreakAhead(s) && s[0] == 32 {
      var n: nat :| n < |s| && (s[n] == 13 || s[n] == 10) && forall i :: 0 <= i < n ==> s[i] == 32;
      assert s[1..][n - 1] == s[n];
    }
  }

  lemma OneRead(s: seq<byte>, out: seq<byte>, mark: nat)
    requires mark <= |out| && s != [] && s[0] != 61
    ensures var base := if s[0] == 13 || s[0] == 10 then out[..mark] else out;
            Decoded(s, out, mark) == Decoded(s[1..], base + [s[0]], if s[0] == 32 then mark else |base| + 1)
  {
  }

  lemma Regroup(a: seq<byte>, c: byte, rest: seq<byte>)
    ensures a + [c] + rest == a + ([c] + rest) && (a + [c])[..|a| + 1] == a + [c]
    ensures forall k :: 0 <= k <= |a| ==> (a + [c])[..k] == a[..k]
  {
  }

  lemma {:induction false} TrimmedFrom(s: seq<byte>, out: seq<byte>, mark: nat)
    requires mark <= |out| && 61 !in s
    ensures Decoded(s, out, mark) == (if BreakAhead(s) then out[..mark] else out) + Trimmed(s)
    decreases |s|
  {
    hide BreakAhead;
    if s == [] {
      NoBreakAhead();
      assert out + [] == out;
    } else {
      hide Decoded;
      AheadLater(s);
      OneRead(s, out, mark);
      var c := s[0];
      var base := if c == 13 || c == 10 then out[..mark] else out;
      TrimmedFrom(s[1..], base + [c], if c == 32 then mark else |base| + 1);
      Regroup(base, c, Trimmed(s[1..]));
    }
  }

  lemma NoBreakAhead()
    ensures !BreakAhead([])
  {
  }

  /** A text without = is read as it is, but for the spaces at the ends of its lines. */
  lemma {:induction false} ReadsTrimmed(s: seq<byte>)
    requires 61 !in s
    ensures Decoded(s, [], 0) == Trimmed(s)
  {
    TrimmedFrom(s, [], 0);
    assert [] + Trimmed(s) == Trimmed(s);
  }

  // ----- reading in two parts -----

  /** A hexadecimal digit in either case, and its value. */
  predicate HexByte(c: byte) {
    48 <= c <= 57 || 65 <= c <= 70 || 97 <= c <= 102
  }

  function ValueOf(c: byte): nat
    requires HexByte(c)
  {
    if c <= 57 then c - 48 else if c <= 70 then c - 65 + 10 else c - 97 + 10
  }

  /** How many bytes the quote at the start of s takes, when what follows is no LF; zero when s ends within it. */
  function QuoteLength(s: seq<byte>): (n: nat)
    requires s != []
    ensures n <= |s| && n <= 3
  {
    if |s| == 1 then 0
    else if s[1] == 0 then 1
    else if s[1] == 13 then if |s| > 2 && s[2] == 10 then 3 else 2
    else if HexByte(s[1]) then if |s| > 2 then 3 else 0
    else 2
  }

  /** Every quote begun in s ends in it. */
  ghost predicate Whole(s: seq<byte>)
    decreases |s|
  {
    if s == [] then true
    else if s[0] != 61 then Whole(s[1..])
    else QuoteLength(s) > 0 && Whole(s[QuoteLength(s)..])
  }

  /** What is out and where the mark stands behind s. */
  ghost function Behind(s: seq<byte>, out: seq<byte>, mark: nat): (r: (seq<byte>, nat))
    requires mark <= |out|
    ensures r.1 <= |r.0| && r.0 == Decoded(s, out, mark)
    decreases |s|
  {
    if s == [] then (out, mark)
    else
      var n := Decode1(s, out, mark);
      Behind(s[n.taken..], n.out, n.mark)
  }

  /** t does not begin with an LF that belongs to a CR at the end of s. */
  predicate Apart(s: seq<byte>, t: seq<byte>) {
    s == [] || t == [] || s[|s| - 1] != 13 || t[0] != 10
  }

  lemma {:induction false} FirstTaken(s: seq<byte>, t: seq<byte>, out: seq<byte>, mark: nat)
    requires mark <= |out| && s != [] && Whole(s) && Apart(s, t)
    ensures Decode1(s + t, out, mark) == Decode1(s, out, mark)
    ensures Whole(s[Decode1(s, out, mark).taken..])
  {
    var u := s + t;
    assert u[0] == s[0] && (|s| > 1 ==> u[1] == s[1]) && (|s| > 2 ==> u[2] == s[2]);
    if s[0] == 61 && |s| == 2 {
      assert s[1] == 13 && t != [] ==> u[2] == t[0];
    }
  }

  /** After whole quotes the decoder goes on as from there. */
  lemma {:induction false} ReadOn(s: seq<byte>, t: seq<byte>, out: seq<byte>, mark: nat)
    requires mark <= |out| && Whole(s) && Apart(s, t)
    ensures var b := Behind(s, out, mark); Decoded(s + t, out, mark) == Decoded(t, b.0, b.1)
    decreases |s|
  {
    if s == [] {
      assert s + t == t;
    } else {
      hide Decode1, Whole;
      FirstTaken(s, t, out, mark);
      var n := Decode1(s, out, mark);
      assert (s + t)[n.taken..] == s[n.taken..] + t;
      ReadOn(s[n.taken..], t, n.out, n.mark);
    }
  }

  lemma {:induction false} StepWithin(s: seq<byte>, p: seq<byte>, out: seq<byte>, mark: nat)
    requires mark <= |out| && s != []
    ensures var (n, m) := (Decode1(s, out, mark), Decode1(s, p + out, |p| + mark));
            m.taken == n.taken && m.out == p + n.out && m.mark == |p| + n.mark
  {
    assert (p + out)[..|p| + mark] == p + out[..mark];
  }

  /** What is in front of the mark stays. */
  lemma {:induction false} FrontStays(s: seq<byte>, p: seq<byte>, out: seq<byte>, mark: nat)
    requires mark <= |out|
    ensures Decoded(s, p + out, |p| + mark) == p + Decoded(s, out, mark)
    decreases |s|
  {
    if s != [] {
      hide Decode1;
      StepWithin(s, p, out, mark);
      var n := Decode1(s, out, mark);
      FrontStays(s[n.taken..], p, n.out, n.mark);
    }
  }

  /** The two together: what follows a piece q that leaves nothing but its own bytes x, none of them to be dropped. */
  lemma {:induction false} ReadPiece(s: seq<byte>, q: seq<byte>, t: seq<byte>, x: seq<byte>)
    requires Whole(s) && Apart(s, q + t)
    requires var out := Decoded(s, [], 0); forall mark :: 0 <= mark <= |out| ==>
               Decoded(q + t, out, mark) == Decoded(t, out + x, |out + x|)
    ensures Decoded(s + (q + t), [], 0) == Decoded(s, [], 0) + x + Decoded(t, [], 0)
  {
    hide Decoded, Whole;
    var b := Behind(s, [], 0);
    ReadOn(s, q + t, [], 0);
    FrontStays(t, b.0 + x, [], 0);
    assert b.0 + x + [] == b.0 + x;
  }

  // ----- the laws -----

  /** A quote is its byte, in either case of its digits; nothing before it is dropped. */
  lemma {:induction false} ReadsQuote(s: seq<byte>, h: byte, l: byte, t: seq<byte>)
    requires Whole(s) && HexByte(h) && HexByte(l)
    ensures Decoded(s + ([61, h, l] + t), [], 0)
            == Decoded(s, [], 0) + [16 * ValueOf(h) + ValueOf(l)] + Decoded(t, [], 0)
  {
    hide Decoded;
    var q := [61, h, l];
    forall mark: nat | mark <= |Decoded(s, [], 0)|
      ensures var out := Decoded(s, [], 0); var x := [16 * ValueOf(h) + ValueOf(l)];
              Decoded(q + t, out, mark) == Decoded(t, out + x, |out + x|)
    {
      QuoteOut(h, l, t, Decoded(s, [], 0), mark);
    }
    ReadPiece(s, q, t, [16 * ValueOf(h) + ValueOf(l)]);
  }

  lemma {:induction false} QuoteOut(h: byte, l: byte, t: seq<byte>, out: seq<byte>, mark: nat)
    requires HexByte(h) && HexByte(l) && mark <= |out|
    ensures Decoded([61, h, l] + t, out, mark) == Decoded(t, out + [16 * ValueOf(h) + ValueOf(l)], |out| + 1)
  {
    var q := [61, h, l];
    assert (q + t)[3..] == t && (q + t)[0] == 61 && (q + t)[1] == h && (q + t)[2] == l;
  }

  /** Any other byte but a space or a line end stands for itself. */
  lemma {:induction false} ReadsByte(s: seq<byte>, c: byte, t: seq<byte>)
    requires Whole(s) && c != 61 && c != 32 && c != 13 && c != 10
    ensures Decoded(s + ([c] + t), [], 0) == Decoded(s, [], 0) + [c] + Decoded(t, [], 0)
  {
    assert ([c] + t)[1..] == t && ([c] + t)[0] == c;
    ReadPiece(s, [c], t, [c]);
  }

  /** A soft break joins two texts that are read each on its own, be it CR LF, CR or LF. */
  lemma {:induction false} ReadsSoftBreak(s: seq<byte>, q: seq<byte>, t: seq<byte>)
    requires Whole(s) && (q == [61, 13, 10] || q == [61, 10] || (q == [61, 13] && (t == [] || t[0] != 10)))
    ensures Decoded(s + (q + t), [], 0) == Decoded(s, [], 0) + Decoded(t, [], 0)
  {
    assert (q + t)[|q|..] == t && (q + t)[0] == 61 && (q + t)[1] == q[1];
    assert |q| > 2 ==> (q + t)[2] == q[2];
    assert |q| == 2 && t != [] ==> (q + t)[2] == t[0];
    var out := Decoded(s, [], 0);
    assert out + [] == out;
    ReadPiece(s, q, t, []);
  }

  /** An = before anything else is an ordinary character, and so is what follows it. */
  lemma {:induction false} ReadsBadQuote(s: seq<byte>, c: byte, t: seq<byte>)
    requires Whole(s) && !HexByte(c) && c != 0 && c != 13 && c != 10
    ensures Decoded(s + ([61, c] + t), [], 0) == Decoded(s, [], 0) + [61, c] + Decoded(t, [], 0)
  {
    var q := [61, c];
    assert (q + t)[2..] == t && (q + t)[0] == 61 && (q + t)[1] == c;
    ReadPiece(s, q, t, [61, c]);
  }

  /** But when only the second digit is none, it is lost. */
  lemma {:induction false} LosesSecond(s: seq<byte>, h: byte, e: byte, t: seq<byte>)
    requires Whole(s) && HexByte(h) && !HexByte(e)
    ensures Decoded(s + ([61, h, e] + t), [], 0) == Decoded(s, [], 0) + [61, h] + Decoded(t, [], 0)
  {
    var q := [61, h, e];
    assert (q + t)[3..] == t && (q + t)[0] == 61 && (q + t)[1] == h && (q + t)[2] == e;
    ReadPiece(s, q, t, [61, h]);
  }

  /** Of a bad quote, an = with two bytes h and e behind it that are not both digits, nothing is lost if and only if h is
      no digit. */
  lemma {:induction false} BadQuoteKeptExactly(s: seq<byte>, h: byte, e: byte)
    requires Whole(s) && h != 0 && h != 13 && h != 10 && 33 <= e <= 126 && e != 61 && !(HexByte(h) && HexByte(e))
    ensures Decoded(s + [61, h, e], [], 0) == Decoded(s, [], 0) + [61, h, e] <==> !HexByte(h)
  {
    hide Decoded, Whole;
    var d := Decoded(s, [], 0);
    DecodedNone();
    if HexByte(h) {
      LosesSecond(s, h, e, []);
      assert s + ([61, h, e] + []) == s + [61, h, e];
      assert |d + [61, h] + []| < |d + [61, h, e]|;
    } else {
      ReadsBadQuote(s, h, [e]);
      ReadsByte([], e, []);
      assert [] + ([e] + []) == [e];
      assert s + ([61, h] + [e]) == s + [61, h, e];
      assert d + [61, h] + [e] == d + [61, h, e];
    }
  }

  lemma DecodedNone()
    ensures Decoded([], [], 0) == [] && Whole([])
  {
  }

  /** A quote cut off by the end of the text. */
  lemma {:induction false} ReadsCutQuote(s: seq<byte>, h: byte)
    requires Whole(s) && HexByte(h)
    ensures Decoded(s + [61], [], 0) == Decoded(s, [], 0)
    ensures Decoded(s + [61, h], [], 0) == Decoded(s, [], 0) + [61, h]
  {
    var b := Behind(s, [], 0);
    ReadOn(s, [61], [], 0);
    ReadOn(s, [61, h], [], 0);
    assert [61][1..] == [] && [61, h][2..] == [];
  }

  function Spaces(n: nat): seq<byte> {
    seq(n, i => 32)
  }

  lemma {:induction false} SpacesOut(n: nat, t: seq<byte>, out: seq<byte>, mark: nat)
    requires mark <= |out|
    ensures Decoded(Spaces(n) + t, out, mark) == Decoded(t, out + Spaces(n), mark)
    decreases n
  {
    if n == 0 {
      assert Spaces(n) + t == t && out + Spaces(n) == out;
    } else {
      assert (Spaces(n) + t)[1..] == Spaces(n - 1) + t;
      assert out + [32] + Spaces(n - 1) == out + Spaces(n);
      SpacesOut(n - 1, t, out + [32], mark);
    }
  }

  /** Spaces at the end of the text stay. */
  lemma {:induction false} ReadsSpaces(s: seq<byte>, n: nat)
    requires Whole(s)
    ensures Decoded(s + Spaces(n), [], 0) == Decoded(s, [], 0) + Spaces(n)
  {
    var b := Behind(s, [], 0);
    ReadOn(s, Spaces(n), [], 0);
    assert Spaces(n) + [] == Spaces(n);
    SpacesOut(n, [], b.0, b.1);
  }

  /** Unless a space stands last, nothing of s can be dropped any more. */
  lemma {:induction false} MarkAtEnd(s: seq<byte>, out: seq<byte>, mark: nat)
    requires Whole(s) && mark <= |out| && if s == [] then mark == |out| else s[|s| - 1] != 32
    ensures Behind(s, out, mark).1 == |Behind(s, out, mark).0|
    decreases |s|
  {
    if s != [] {
      var n := Decode1(s, out, mark);
      FirstTaken(s, [], out, mark);
      assert s + [] == s;
      MarkAtEnd(s[n.taken..], n.out, n.mark);
    }
  }

  lemma BreakOut(c: byte, t: seq<byte>, out: seq<byte>, mark: nat)
    requires (c == 13 || c == 10) && mark <= |out|
    ensures Decoded([c] + t, out, mark) == Decoded(t, out[..mark] + [c], mark + 1)
  {
    assert ([c] + t)[1..] == t;
  }

  /** Spaces before a hard line break are dropped. */
  lemma {:induction false} DropsSpaces(s: seq<byte>, n: nat, c: byte, t: seq<byte>)
    requires Whole(s) && (s == [] || s[|s| - 1] != 32) && (c == 13 || c == 10) && Apart(s, Spaces(n) + ([c] + t))
    ensures Decoded(s + (Spaces(n) + ([c] + t)), [], 0) == Decoded(s, [], 0) + [c] + Decoded(t, [], 0)
  {
    hide Whole, Decoded;
    var q := [c] + t;
    var b := Behind(s, [], 0);
    MarkAtEnd(s, [], 0);
    ReadOn(s, Spaces(n) + q, [], 0);
    SpacesOut(n, q, b.0, b.1);
    assert (b.0 + Spaces(n))[..b.1] == b.0;
    BreakOut(c, t, b.0 + Spaces(n), b.1);
    FrontStays(t, b.0 + [c], [], 0);
    assert b.0 + [c] + [] == b.0 + [c];
  }

  // ----- the case of the digits -----

  /** It does not matter in which case the digits of a quote behind s are written. */
  ghost predicate CaseIsFree(s: seq<byte>) {
    forall h, l, h', l', t: seq<byte> ::
      (HexByte(h) && HexByte(l) && HexByte(h') && HexByte(l') && ValueOf(h) == ValueOf(h')
       && ValueOf(l) == ValueOf(l')) ==>
        Decoded(s + ([61, h, l] + t), [], 0) == Decoded(s + ([61, h', l'] + t), [], 0)
  }

  /** s that is not whole ends with = or with = and a digit. */
  lemma {:induction false} CutQuote(s: seq<byte>) returns (p: seq<byte>, u: seq<byte>)
    requires !Whole(s)
    ensures s == p + u && Whole(p) && (u == [61] || (|u| == 2 && u[0] == 61 && HexByte(u[1])))
    decreases |s|
  {
    if s[0] == 61 && QuoteLength(s) == 0 {
      p, u := [], s;
    } else {
      var n := if s[0] == 61 then QuoteLength(s) else 1;
      p, u := CutQuote(s[n..]);
      p := s[..n] + p;
      assert p[n..] + u == s[n..];
    }
  }

  /** Nor does it exactly when every quote begun in s ends in it. */
  lemma {:induction false} CaseIsFreeExactly(s: seq<byte>)
    ensures CaseIsFree(s) <==> Whole(s)
  {
    if Whole(s) {
      forall h, l, h', l', t: seq<byte> |
        HexByte(h) && HexByte(l) && HexByte(h') && HexByte(l') && ValueOf(h) == ValueOf(h') && ValueOf(l) == ValueOf(l')
        ensures Decoded(s + ([61, h, l] + t), [], 0) == Decoded(s + ([61, h', l'] + t), [], 0)
      {
        ReadsQuote(s, h, l, t);
        ReadsQuote(s, h', l', t);
      }
    } else {
      CaseShows(s);
      assert [61, 97, 97] + [] == [61, 97, 97] && [61, 65, 65] + [] == [61, 65, 65];
    }
  }

  lemma {:induction false} TwoLetters(c: byte)
    requires 33 <= c <= 126 && c != 61
    ensures Decoded([c, c], [], 0) == [c, c]
  {
    assert [c] + [] == [c] && [] + ([c] + [c]) == [c, c] && [] + ([c] + []) == [c];
    ReadsByte([], c, []);
    ReadsByte([], c, [c]);
  }

  /** Two letters behind a cut quote stand for themselves. */
  lemma {:induction false} LettersStay(p: seq<byte>, u: seq<byte>, c: byte)
    requires Whole(p) && (u == [61] || (|u| == 2 && u[0] == 61 && HexByte(u[1]))) && (c == 97 || c == 65)
    ensures Decoded(p + u + ([61, c, c] + []), [], 0) == Decoded(p, [], 0) + (if |u| == 1 then [61, 61] else u) + [c, c]
  {
    hide Decoded, Whole;
    TwoLetters(c);
    assert p + u + ([61, c, c] + []) == p + (u + [61, c, c]);
    if |u| == 1 {
      assert u + [61, c, c] == [61, 61] + [c, c];
      ReadsBadQuote(p, 61, [c, c]);
    } else {
      assert u == [61, u[1]] && u + [61, c, c] == [61, u[1], 61] + [c, c];
      LosesSecond(p, u[1], 61, [c, c]);
    }
  }

  lemma {:induction false} CaseShows(s: seq<byte>)
    requires !Whole(s)
    ensures Decoded(s + ([61, 97, 97] + []), [], 0) != Decoded(s + ([61, 65, 65] + []), [], 0)
  {
    hide Decoded, Whole;
    var p, u := CutQuote(s);
    LettersStay(p, u, 97);
    LettersStay(p, u, 65);
    var x := Decoded(p, [], 0) + if |u| == 1 then [61, 61] else u;
    assert (x + [97, 97])[|x|] == 97 && (x + [65, 65])[|x|] == 65;
  }
}
