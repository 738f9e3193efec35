/** What the base64 decoder makes of any text, and where the encoder breaks its lines (section 6.8 of RFC 2045). */
module Base64Reading {
  import opened Base64
  import opened Bytes
  import opened Options

  /** n characters from c on. */
  function Run(c: nat, n: nat): (s: seq<nat>)
    ensures |s| == n
  {
    seq(n, i requires 0 <= i < n => c + i)
  }

  /** A to Z, a to z, 0 to 9, + and /. */
  const ALPHABET: seq<nat> := Run('A' as nat, 26) + Run('a' as nat, 26) + Run('0' as nat, 10) + ['+' as nat, '/' as nat]

  /** NUL, TAB, LF, FF, CR and space. */
  predicate Blank(c: byte) {
    c == 0 || c == 9 || c == 10 || c == 12 || c == 13 || c == 32
  }

  ghost predicate Stands(n: nat, c: byte) {
    n < |ALPHABET| && ALPHABET[n] == c
  }

  ghost predicate InAlphabet(c: byte) {
    exists n: nat :: Stands(n, c)
  }

  /** The place of a character in the alphabet. */
  ghost function PlaceOf(c: byte): (n: nat)
    requires InAlphabet(c)
    ensures Stands(n, c)
  {
    var n: nat :| Stands(n, c);
    n
  }

  lemma {:induction false} AlphabetIs(n: nat)
    requires n < 64
    ensures |ALPHABET| == 64 && ALPHABET[n] == Digit(n)
  {
  }

  /** The table knows exactly the alphabet, the blanks and =. */
  lemma {:induction false} ClassIs(c: byte)
    ensures InAlphabet(c) ==> PlaceOf(c) < 64 && Classify(c) == Data(PlaceOf(c))
    ensures !InAlphabet(c) ==> !Classify(c).Data?
    ensures Classify(c) == White <==> Blank(c)
    ensures Classify(c) == Pad <==> c == 61
    ensures Blank(c) || c == 61 ==> !InAlphabet(c)
  {
    if InAlphabet(c) {
      AlphabetIs(PlaceOf(c));
      DigitDecodes(PlaceOf(c));
    }
    match Classify(c)
    case Data(v) =>
      AlphabetIs(v);
      assert Stands(v, c);
    case _ =>
  }

  // ----- the specification -----

  /** The values of the digits in s, in order. */
  ghost function Values(s: seq<byte>): (v: seq<nat>)
    ensures forall i :: 0 <= i < |v| ==> v[i] < 64
  {
    if s == [] then []
    else if InAlphabet(s[0]) then
      ClassIs(s[0]);
      [PlaceOf(s[0])] + Values(s[1..])
    else Values(s[1..])
  }

  /** Nothing but digits and blanks. */
  ghost predicate Clean(s: seq<byte>) {
    forall i :: 0 <= i < |s| ==> InAlphabet(s[i]) || Blank(s[i])
  }

  /** Four values make three bytes; two and three left over make one and two. */
  function Packed(v: seq<nat>): (out: seq<nat>)
    decreases |v|
  {
    if |v| < 2 then []
    else if |v| == 2 then [v[0] * 4 + v[1] / 16]
    else if |v| == 3 then [v[0] * 4 + v[1] / 16, v[1] % 16 * 16 + v[2] / 4]
    else [v[0] * 4 + v[1] / 16, v[1] % 16 * 16 + v[2] / 4, v[2] % 4 * 64 + v[3]] + Packed(v[4..])
  }

  /** May the data end after n digits with the padding tail? */
  predicate EndsWell(n: nat, tail: seq<byte>) {
    tail == [] || n % 4 == 3 || (n % 4 == 2 && |tail| > 1 && tail[1] == 61)
  }

  // ----- the decoder -----

  /** What the digits do to the state of the decoder. */
  datatype State = State(out: seq<byte>, part: byte, e: nat)

  ghost predicate Good(a: State) {
    GoodPart(a.part, a.e)
  }

  ghost function After(a: State, c: nat): (b: State)
    requires Good(a) && c < 64
    ensures Good(b)
  {
    State(Output(a.out, a.part, a.e, c), Started(a.e, c), (a.e + 1) % 4)
  }

  ghost function Fed(v: seq<nat>, a: State): (b: State)
    requires Good(a) && forall i :: 0 <= i < |v| ==> v[i] < 64
    ensures Good(b)
    decreases |v|
  {
    if v == [] then a else Fed(v[1..], After(a, v[0]))
  }

  ghost function From(s: seq<byte>, a: State): Option<seq<byte>>
    requires Good(a)
  {
    Decoded(s, a.out, a.part, a.e)
  }

  lemma OneRead(s: seq<byte>, a: State)
    requires Good(a) && s != [] && s[0] != 61
    ensures From(s, a) == if InAlphabet(s[0]) then From(s[1..], After(a, PlaceOf(s[0])))
                          else if Blank(s[0]) then From(s[1..], a)
                          else None
    ensures InAlphabet(s[0]) ==> !Blank(s[0])
  {
    ClassIs(s[0]);
  }

  lemma ValuesStep(s: seq<byte>)
    requires s != []
    ensures Values(s) == if InAlphabet(s[0]) then [PlaceOf(s[0])] + Values(s[1..]) else Values(s[1..])
  {
  }

  /** Up to the first = the decoder feeds on the digits, unless something else turns up. */
  lemma {:induction false} ReadsDigits(s: seq<byte>, t: seq<byte>, a: State)
    requires Good(a) && 61 !in s
    ensures From(s + t, a) == if Clean(s) then From(t, Fed(Values(s), a)) else None
    decreases |s|
  {
    hide From, After, InAlphabet, Blank, Values, Clean;
    CleanNone();
    if s == [] {
      assert s + t == t;
    } else {
      assert (s + t)[1..] == s[1..] + t && (s + t)[0] == s[0];
      OneRead(s + t, a);
      CleanStep(s);
      ValuesStep(s);
      if InAlphabet(s[0]) {
        assert Values(s)[1..] == Values(s[1..]);
        ReadsDigits(s[1..], t, After(a, PlaceOf(s[0])));
      } else if Blank(s[0]) {
        ReadsDigits(s[1..], t, a);
      }
    }
  }

  lemma CleanNone()
    ensures Clean([]) && Values([]) == []
  {
  }

  lemma CleanStep(s: seq<byte>)
    requires s != []
    ensures Clean(s) <==> (InAlphabet(s[0]) || Blank(s[0])) && Clean(s[1..])
  {
    if Clean(s[1..]) {
      assert forall i :: 0 < i < |s| ==> s[i] == s[1..][i - 1];
    }
  }

  /** The first digits of a quantum. */
  lemma {:induction false} Quantum(x: nat, y: nat, out: seq<byte>)
    requires x < 64 && y < 64
    ensures x * 4 + y / 16 < 256
    ensures var a := After(After(State(out, 0, 0), x), y); a == State(out + [x * 4 + y / 16], y % 16 * 16, 2)
  {
  }

  lemma {:induction false} QuantumThird(y: nat, z: nat, out: seq<byte>)
    requires y < 64 && z < 64
    ensures y % 16 * 16 + z / 4 < 256
    ensures Good(State(out, y % 16 * 16, 2))
    ensures After(State(out, y % 16 * 16, 2), z) == State(out + [y % 16 * 16 + z / 4], z % 4 * 64, 3)
  {
  }

  lemma {:induction false} QuantumFourth(z: nat, u: nat, out: seq<byte>)
    requires z < 64 && u < 64
    ensures z % 4 * 64 + u < 256
    ensures Good(State(out, z % 4 * 64, 3))
    ensures After(State(out, z % 4 * 64, 3), u) == State(out + [z % 4 * 64 + u], 0, 0)
  {
  }

  lemma {:induction false} FedOne(v: seq<nat>, a: State)
    requires Good(a) && forall i :: 0 <= i < |v| ==> v[i] < 64
    ensures Fed(v, a) == if v == [] then a else Fed(v[1..], After(a, v[0]))
  {
  }

  /** Two digits of a quantum, then the rest. */
  lemma {:induction false} TwoFed(v: seq<nat>, out: seq<byte>)
    requires |v| >= 2 && forall i :: 0 <= i < |v| ==> v[i] < 64
    ensures v[0] * 4 + v[1] / 16 < 256 && Good(State(out, v[1] % 16 * 16, 2))
    ensures Fed(v, State(out, 0, 0)) == Fed(v[2..], State(out + [v[0] * 4 + v[1] / 16], v[1] % 16 * 16, 2))
  {
    hide After, Fed;
    Quantum(v[0], v[1], out);
    QuantumThird(v[1], 0, out);
    FedOne(v, State(out, 0, 0));
    FedOne(v[1..], After(State(out, 0, 0), v[0]));
    assert v[1..][1..] == v[2..];
  }

  lemma {:induction false} ThreeFed(v: seq<nat>, out: seq<byte>)
    requires |v| >= 3 && forall i :: 0 <= i < |v| ==> v[i] < 64
    ensures v[0] * 4 + v[1] / 16 < 256 && v[1] % 16 * 16 + v[2] / 4 < 256 && Good(State(out, v[2] % 4 * 64, 3))
    ensures Fed(v, State(out, 0, 0))
            == Fed(v[3..], State(out + [v[0] * 4 + v[1] / 16] + [v[1] % 16 * 16 + v[2] / 4], v[2] % 4 * 64, 3))
  {
    hide After, Fed;
    TwoFed(v, out);
    QuantumThird(v[1], v[2], out + [v[0] * 4 + v[1] / 16]);
    QuantumFourth(v[2], 0, out);
    FedOne(v[2..], State(out + [v[0] * 4 + v[1] / 16], v[1] % 16 * 16, 2));
    assert v[2..][1..] == v[3..];
  }

  lemma {:induction false} FourFed(v: seq<nat>, out: seq<byte>)
    requires |v| >= 4 && forall i :: 0 <= i < |v| ==> v[i] < 64
    ensures v[0] * 4 + v[1] / 16 < 256 && v[1] % 16 * 16 + v[2] / 4 < 256 && v[2] % 4 * 64 + v[3] < 256
    ensures Fed(v, State(out, 0, 0))
            == Fed(v[4..], State(out + [v[0] * 4 + v[1] / 16] + [v[1] % 16 * 16 + v[2] / 4] + [v[2] % 4 * 64 + v[3]],
                                 0, 0))
  {
    hide After, Fed;
    ThreeFed(v, out);
    var more := out + [v[0] * 4 + v[1] / 16] + [v[1] % 16 * 16 + v[2] / 4];
    QuantumFourth(v[2], v[3], more);
    FedOne(v[3..], State(more, v[2] % 4 * 64, 3));
    assert v[3..][1..] == v[4..];
  }

  /** The decoder packs the digits. */
  lemma {:induction false} FedPacks(v: seq<nat>, out: seq<byte>)
    requires forall i :: 0 <= i < |v| ==> v[i] < 64
    ensures var b := Fed(v, State(out, 0, 0)); b.out == out + Packed(v) && b.e == |v| % 4
    decreases |v|
  {
    hide After, Fed, Good;
    if |v| >= 4 {
      FourFed(v, out);
      FedPacks(v[4..], out + [v[0] * 4 + v[1] / 16] + [v[1] % 16 * 16 + v[2] / 4] + [v[2] % 4 * 64 + v[3]]);
    } else {
      FedFew(v, out);
    }
  }

  lemma {:induction false} FedFew(v: seq<nat>, out: seq<byte>)
    requires |v| < 4 && forall i :: 0 <= i < |v| ==> v[i] < 64
    ensures var b := Fed(v, State(out, 0, 0)); b.out == out + Packed(v) && b.e == |v|
  {
    hide After, Fed;
    if |v| == 3 {
      ThreeFed(v, out);
      FedOne(v[3..], State(out + [v[0] * 4 + v[1] / 16] + [v[1] % 16 * 16 + v[2] / 4], v[2] % 4 * 64, 3));
    } else if |v| == 2 {
      TwoFed(v, out);
      FedOne(v[2..], State(out + [v[0] * 4 + v[1] / 16], v[1] % 16 * 16, 2));
    } else {
      FedStart(v, out);
    }
  }

  lemma {:induction false} FedStart(v: seq<nat>, out: seq<byte>)
    requires |v| < 2 && forall i :: 0 <= i < |v| ==> v[i] < 64
    ensures var b := Fed(v, State(out, 0, 0)); b.out == out && b.e == |v|
  {
    if |v| == 1 {
      assert v[1..] == [];
    }
  }

  /** The answer for every text: s is what stands before the first =, tail the rest from there on. */
  lemma {:induction false} DecodedIs(s: seq<byte>, tail: seq<byte>)
    requires 61 !in s && (tail != [] ==> tail[0] == 61)
    ensures var (v, answer) := (Values(s), Decoded(s + tail, [], 0, 0));
            if Clean(s) && EndsWell(|v|, tail) then answer.Some? && answer.value == Packed(v) else answer == None
  {
    var v := Values(s);
    ReadsDigits(s, tail, State([], 0, 0));
    FedPacks(v, []);
    ClassIs(61);
  }

  /** A blank before the first = changes nothing. */
  lemma {:induction false} BlankIsSkipped(s: seq<byte>, b: byte, t: seq<byte>)
    requires 61 !in s && Blank(b)
    ensures Decoded(s + ([b] + t), [], 0, 0) == Decoded(s + t, [], 0, 0)
  {
    var a := State([], 0, 0);
    ReadsDigits(s, [b] + t, a);
    ReadsDigits(s, t, a);
    ClassIs(b);
    assert ([b] + t)[1..] == t;
  }

  /** Anything but a digit or a blank before the first = makes it junk. */
  lemma {:induction false} JunkIsRefused(s: seq<byte>, c: byte, t: seq<byte>)
    requires 61 !in s && !InAlphabet(c) && !Blank(c) && c != 61
    ensures Decoded(s + ([c] + t), [], 0, 0) == None
  {
    ReadsDigits(s, [c] + t, State([], 0, 0));
    ClassIs(c);
  }

  // ----- the lines of the encoder -----

  /** Lines of 60 characters; the last one, shorter, may be empty. */
  ghost function Lines(d: seq<byte>): seq<byte>
    decreases |d|
  {
    if |d| < 60 then d + [13, 10] else d[..60] + [13, 10] + Lines(d[60..])
  }

  lemma LinesMore(f: seq<byte>, d: seq<byte>)
    requires |f| == 60
    ensures Lines(f + d) == f + [13, 10] + Lines(d)
  {
    assert (f + d)[..60] == f && (f + d)[60..] == d;
  }

  /** The encoding is the one without line breaks, cut into such lines: f is what the current line has so far. */
  lemma {:induction false} EncodedLines(s: seq<byte>, i: nat, f: seq<byte>)
    requires i < 15 && |f| == 4 * i
    ensures f + Encoded(s, i, true) == Lines(f + Encoded(s, 0, false))
    decreases |s|
  {
    hide Encoded, Lines;
    if |s| >= 3 {
      var four := Tuplet(s[0], s[1], s[2]);
      var (rest, plain) := (Encoded(s[3..], NextInLine(i + 1), true), Encoded(s[3..], 0, false));
      OneTuplet(s, i);
      Grouped(f, four, BreakAfter(i + 1, true), rest);
      Grouped(f, four, [], plain);
      if i == 14 {
        EncodedLines(s[3..], 0, []);
        LinesMore(f + four, plain);
        assert [] + rest == rest && [] + plain == plain;
      } else {
        EncodedLines(s[3..], i + 1, f + four);
      }
    } else {
      LastLine(s, i, f);
    }
  }

  lemma {:induction false} OneTuplet(s: seq<byte>, i: nat)
    requires |s| >= 3
    ensures var four := Tuplet(s[0], s[1], s[2]);
            && Encoded(s, i, true) == four + (BreakAfter(i + 1, true) + Encoded(s[3..], NextInLine(i + 1), true))
            && Encoded(s, 0, false) == four + ([] + Encoded(s[3..], 0, false))
  {
    NextIgnored(s[3..], 1, 0);
  }

  lemma Grouped(f: seq<byte>, x: seq<byte>, b: seq<byte>, rest: seq<byte>)
    ensures f + (x + (b + rest)) == f + x + b + rest && f + x + [] == f + x
  {
  }

  lemma {:induction false} NextIgnored(s: seq<byte>, i: nat, j: nat)
    ensures Encoded(s, i, false) == Encoded(s, j, false)
    decreases |s|
  {
    if |s| >= 3 {
      NextIgnored(s[3..], NextInLine(i + 1), NextInLine(j + 1));
    }
  }

  lemma {:induction false} LastLine(s: seq<byte>, i: nat, f: seq<byte>)
    requires i < 15 && |f| == 4 * i && |s| < 3
    ensures f + Encoded(s, i, true) == Lines(f + Encoded(s, 0, false))
  {
    if s == [] {
      assert f + [] == f;
    } else {
      var four := Remainder(s);
      assert four + ([] + []) == four && four + ([] + [13, 10]) == four + [13, 10];
      if i == 14 {
        LinesMore(f + four, []);
        assert f + four + [] == f + four && Lines([]) == [13, 10];
        assert f + (four + ([13, 10] + [13, 10])) == f + four + [13, 10] + [13, 10];
      } else {
        assert f + (four + [13, 10]) == f + four + [13, 10];
      }
    }
  }
}
