/** imap_send of a sequence too long for one command line: it is sent in pieces. */
module CommandSplit {
  import opened SequenceText

  const MAXCOMMAND: nat := 1000

  /** The first comma of s from position k on; the end of s when there is none. */
  function CommaFrom(s: string, k: nat): (c: nat)
    requires k <= |s|
    ensures k <= c <= |s| && (c < |s| ==> s[c] == ',')
    decreases |s| - k
  {
    if k == |s| || s[k] == ',' then k else CommaFrom(s, k + 1)
  }

  /** Where s is cut when it is too long. */
  function Cut(s: string): (c: nat)
    requires |s| > MAXCOMMAND
    ensures MAXCOMMAND - 30 <= c <= |s| && (c < |s| ==> s[c] == ',')
  {
    CommaFrom(s, MAXCOMMAND - 30)
  }

  /** The pieces up to the end, or up to the first one that cannot be made: the fatal exit. */
  datatype Split = Split(fits: bool, pieces: seq<string>)

  ghost function Pieces(s: string): Split
    decreases |s|
  {
    if s == "" then Split(true, [])
    else if |s| <= MAXCOMMAND then Split(true, [s])
    else
      var c := Cut(s);
      if c > MAXCOMMAND then Split(false, [])
      else
        var rest := Pieces(s[c + 1..]);
        Split(rest.fits, [s[..c]] + rest.pieces)
  }

  function Join(pieces: seq<string>): string {
    if pieces == [] then ""
    else if |pieces| == 1 then pieces[0]
    else pieces[0] + ([','] + Join(pieces[1..]))
  }

  /** No piece is longer than a command line allows. */
  lemma {:induction false} PiecesAreShort(s: string)
    ensures forall k :: 0 <= k < |Pieces(s).pieces| ==> |Pieces(s).pieces[k]| <= MAXCOMMAND
    decreases |s|
  {
    if |s| > MAXCOMMAND {
      var c := Cut(s);
      if c <= MAXCOMMAND {
        PiecesAreShort(s[c + 1..]);
      }
    }
  }

  /** No piece but the last is shorter than 970 characters. */
  lemma {:induction false} PiecesAreLong(s: string)
    requires Pieces(s).fits
    ensures forall k :: 0 <= k < |Pieces(s).pieces| - 1 ==> |Pieces(s).pieces[k]| >= 970
    decreases |s|
  {
    if |s| > MAXCOMMAND {
      PiecesAreLong(s[Cut(s) + 1..]);
    }
  }

  /** Joined with commas the pieces are the sequence again. */
  lemma {:induction false} PiecesRejoin(s: string)
    requires Pieces(s).fits && (s != "" ==> s[|s| - 1] != ',')
    ensures Join(Pieces(s).pieces) == s
    decreases |s|
  {
    if |s| > MAXCOMMAND {
      var c := Cut(s);
      var rest := s[c + 1..];
      assert s == s[..c] + ([','] + rest);
      assert rest != "" && rest[|rest| - 1] == s[|s| - 1];
      PiecesRejoin(rest);
      JoinMore(s[..c], Pieces(rest).pieces);
    }
  }

  lemma JoinMore(piece: string, rest: seq<string>)
    requires rest != []
    ensures Join([piece] + rest) == piece + ([','] + Join(rest))
  {
    assert ([piece] + rest)[1..] == rest;
  }

  lemma {:induction false} CommaFromIsFirst(s: string, k: nat, x: nat)
    requires k <= x < |s| && s[x] == ','
    ensures CommaFrom(s, k) <= x
    decreases x - k
  {
    if s[k] != ',' {
      CommaFromIsFirst(s, k + 1, x);
    }
  }

  /** A comma among the 30 characters from k on. */
  ghost predicate CommaNear(s: string, k: nat) {
    exists x :: k <= x < k + 30 && x < |s| && s[x] == ','
  }

  /** Every 30 characters in a row hold a comma. */
  ghost predicate CommasClose(s: string) {
    forall k: nat :: k + 30 <= |s| ==> CommaNear(s, k)
  }

  lemma {:induction false} CloseAfter(s: string, c: nat)
    requires CommasClose(s) && c < |s|
    ensures CommasClose(s[c + 1..])
  {
    var rest := s[c + 1..];
    forall k: nat | k + 30 <= |rest|
      ensures CommaNear(rest, k)
    {
      assert CommaNear(s, c + 1 + k);
      var x :| c + 1 + k <= x < c + 1 + k + 30 && x < |s| && s[x] == ',';
      assert rest[x - c - 1] == ',';
    }
  }

  /** Then the fatal exit is unreachable. */
  lemma {:induction false} CloseCommasFit(s: string)
    requires CommasClose(s)
    ensures Pieces(s).fits
    decreases |s|
  {
    if |s| > MAXCOMMAND {
      var k := MAXCOMMAND - 30;
      assert CommaNear(s, k);
      var x :| k <= x < k + 30 && x < |s| && s[x] == ',';
      CommaFromIsFirst(s, k, x);
      var c := Cut(s);
      CloseAfter(s, c);
      CloseCommasFit(s[c + 1..]);
    }
  }

  /** Elements shorter than 30 characters keep the commas close. */
  lemma {:induction false} ShortElementsClose(elems: seq<Elem>, k: nat)
    requires forall i :: 0 <= i < |elems| ==> |elems[i].Text()| < 30
    requires k + 30 <= |SeqText(elems)|
    ensures CommaNear(SeqText(elems), k)
  {
    var (x, rest) := (elems[0].Text(), elems[1..]);
    SeqTextSplit(elems);
    if |elems| > 1 {
      if k > |x| {
        ShortElementsClose(rest, k - |x| - 1);
      }
      NearAfter(x, SeqText(rest), k);
    }
  }

  lemma NearAfter(x: string, rest: string, k: nat)
    requires |x| < 30 && (k > |x| ==> CommaNear(rest, k - |x| - 1))
    ensures CommaNear(x + ([','] + rest), k)
  {
    var s := x + ([','] + rest);
    if k <= |x| {
      assert s[|x|] == ',';
    } else {
      var i :| k - |x| - 1 <= i < k - |x| - 1 + 30 && i < |rest| && rest[i] == ',';
      assert s[|x| + 1 + i] == ',';
    }
  }

  /** The pieces of a sequence whose elements are shorter than 30 characters all fit. */
  lemma ShortElementsFit(elems: seq<Elem>)
    requires forall i :: 0 <= i < |elems| ==> |elems[i].Text()| < 30
    ensures Pieces(SeqText(elems)).fits
  {
    forall k: nat | k + 30 <= |SeqText(elems)|
      ensures CommaNear(SeqText(elems), k)
    {
      ShortElementsClose(elems, k);
    }
    CloseCommasFit(SeqText(elems));
  }

  // ----- what the pieces mean -----

  lemma ElemPlain(e: Elem)
    ensures forall i :: 0 <= i < |e.Text()| ==> e.Text()[i] != ','
    ensures e.Text() != ""
  {
  }

  lemma {:induction false} CutAfter(x: string, rest: string, c: nat)
    requires c < |rest|
    ensures var s := x + ([','] + rest);
            && s[|x| + 1 + c] == rest[c]
            && s[..|x| + 1 + c] == x + ([','] + rest[..c]) && s[|x| + 1 + c + 1..] == rest[c + 1..]
  {
  }

  lemma {:induction false} CutAt(x: string, rest: string)
    ensures var s := x + ([','] + rest); s[|x|] == ',' && s[..|x|] == x && s[|x| + 1..] == rest
  {
  }

  /** A comma of the sequence stands between two of its elements. */
  lemma {:induction false} CommaBetween(elems: seq<Elem>, c: nat) returns (k: nat)
    requires c < |SeqText(elems)| && SeqText(elems)[c] == ','
    ensures 0 < k < |elems|
    ensures SeqText(elems)[..c] == SeqText(elems[..k]) && SeqText(elems)[c + 1..] == SeqText(elems[k..])
    decreases |elems|, 1
  {
    var (x, rest) := (elems[0].Text(), SeqText(elems[1..]));
    SeqTextSplit(elems);
    ElemPlain(elems[0]);
    assert |elems| > 1 && |x| <= c;
    if c == |x| {
      k := 1;
      CutAt(x, rest);
      assert elems[..1] == [elems[0]];
    } else {
      k := CommaLater(elems, c);
    }
  }

  lemma {:induction false} CommaLater(elems: seq<Elem>, c: nat) returns (k: nat)
    requires |elems| > 1 && |elems[0].Text()| < c < |SeqText(elems)| && SeqText(elems)[c] == ','
    ensures 0 < k < |elems|
    ensures SeqText(elems)[..c] == SeqText(elems[..k]) && SeqText(elems)[c + 1..] == SeqText(elems[k..])
    decreases |elems|, 0
  {
    hide SeqText;
    var (x, rest) := (elems[0].Text(), SeqText(elems[1..]));
    SeqTextSplit(elems);
    var c' := c - |x| - 1;
    CutAfter(x, rest, c');
    var k' := CommaBetween(elems[1..], c');
    k := k' + 1;
    TakeAndDrop(elems, k);
    SeqTextSplit(elems[..k]);
  }

  lemma TakeAndDrop(elems: seq<Elem>, k: nat)
    requires 0 < k <= |elems|
    ensures elems[..k][0] == elems[0] && elems[..k][1..] == elems[1..][..k - 1] && elems[k..] == elems[1..][k - 1..]
  {
  }

  function Flat(chunks: seq<seq<Elem>>): seq<Elem> {
    if chunks == [] then [] else chunks[0] + Flat(chunks[1..])
  }

  ghost predicate AreTexts(chunks: seq<seq<Elem>>, pieces: seq<string>) {
    |chunks| == |pieces| && forall k :: 0 <= k < |chunks| ==> chunks[k] != [] && pieces[k] == SeqText(chunks[k])
  }

  /** Every piece is a sequence of its own, and together they have the elements of the whole, in order:
      so the commands cover exactly the messages of the one they replace. */
  lemma {:induction false} PiecesAreSequences(elems: seq<Elem>) returns (chunks: seq<seq<Elem>>)
    requires forall i :: 0 <= i < |elems| ==> |elems[i].Text()| < 30
    ensures Pieces(SeqText(elems)).fits && AreTexts(chunks, Pieces(SeqText(elems)).pieces)
    ensures Flat(chunks) == elems
    decreases |elems|, 1
  {
    ShortElementsFit(elems);
    if |SeqText(elems)| > MAXCOMMAND {
      chunks := LongPieces(elems);
    } else {
      chunks := ShortPieces(elems);
    }
  }

  lemma {:induction false} ShortPieces(elems: seq<Elem>) returns (chunks: seq<seq<Elem>>)
    requires |SeqText(elems)| <= MAXCOMMAND
    ensures AreTexts(chunks, Pieces(SeqText(elems)).pieces) && Flat(chunks) == elems
  {
    if elems == [] {
      chunks := [];
    } else {
      hide SeqText;
      TextNotEmpty(elems);
      chunks := [elems];
      assert Flat(chunks[1..]) == [];
    }
  }

  lemma {:induction false} LongPieces(elems: seq<Elem>) returns (chunks: seq<seq<Elem>>)
    requires forall i :: 0 <= i < |elems| ==> |elems[i].Text()| < 30
    requires |SeqText(elems)| > MAXCOMMAND && Pieces(SeqText(elems)).fits
    ensures AreTexts(chunks, Pieces(SeqText(elems)).pieces) && Flat(chunks) == elems
    decreases |elems|, 0
  {
    hide Pieces, SeqText, Cut, AreTexts, Flat;
    var c := Cut(SeqText(elems));
    CutFits(SeqText(elems));
    var k := CommaBetween(elems, c);
    var rest := PiecesAreSequences(elems[k..]);
    chunks := ChunksMore(elems, k, rest, Pieces(SeqText(elems[k..])).pieces);
  }

  lemma TextNotEmpty(elems: seq<Elem>)
    requires elems != []
    ensures SeqText(elems) != ""
  {
    SeqTextSplit(elems);
    ElemPlain(elems[0]);
  }

  lemma CutFits(s: string)
    requires |s| > MAXCOMMAND && Pieces(s).fits
    ensures Cut(s) <= MAXCOMMAND && s[Cut(s)] == ','
    ensures Pieces(s).pieces == [s[..Cut(s)]] + Pieces(s[Cut(s) + 1..]).pieces
  {
  }

  lemma ChunksMore(elems: seq<Elem>, k: nat, rest: seq<seq<Elem>>, pieces: seq<string>) returns (chunks: seq<seq<Elem>>)
    requires 0 < k < |elems| && AreTexts(rest, pieces) && Flat(rest) == elems[k..]
    ensures AreTexts(chunks, [SeqText(elems[..k])] + pieces) && Flat(chunks) == elems
  {
    chunks := [elems[..k]] + rest;
    assert chunks[1..] == rest;
  }

  lemma {:induction false} FlatDenotes(chunks: seq<seq<Elem>>, star: nat, x: nat)
    ensures Denoted(Flat(chunks), star, x) <==> exists k :: 0 <= k < |chunks| && Denoted(chunks[k], star, x)
  {
    if chunks != [] {
      var (a, b) := (chunks[0], Flat(chunks[1..]));
      FlatDenotes(chunks[1..], star, x);
      assert Denoted(a + b, star, x) <==> Denoted(a, star, x) || Denoted(b, star, x) by {
        if Denoted(a, star, x) {
          var i :| 0 <= i < |a| && a[i].Denotes(star, x);
          assert (a + b)[i].Denotes(star, x);
        }
        if Denoted(b, star, x) {
          var i :| 0 <= i < |b| && b[i].Denotes(star, x);
          assert (a + b)[|a| + i].Denotes(star, x);
        }
      }
      assert forall k :: 0 <= k < |chunks[1..]| ==> chunks[1..][k] == chunks[k + 1];
      if exists k :: 0 <= k < |chunks| && Denoted(chunks[k], star, x) {
        var k :| 0 <= k < |chunks| && Denoted(chunks[k], star, x);
        if k > 0 {
          assert Denoted(chunks[1..][k - 1], star, x);
        }
      }
    }
  }

  // ----- sending -----

  /** The pieces of split were sent in order, up to a refusal or the fatal exit. */
  ghost predicate SentSoFar(split: Split, sent: seq<string>, refused: nat) {
    && |sent| <= |split.pieces| && sent == split.pieces[..|sent|]
    && |sent| <= refused + 1
  }

  datatype End = Done | Refused | Fatal

  /** The SEQUENCE case of imap_send, when the server accepts the first so many commands and refuses the
      next.  The text is cut in place for each command and restored.  The reply to the last command is the caller's. */
  method SendSequence(text: array<char>, refused: nat) returns (sent: seq<string>, end: End)
    modifies text
    ensures text[..] == old(text[..])
    ensures var split := if text.Length <= MAXCOMMAND then Split(true, [text[..]]) else Pieces(text[..]);
            && SentSoFar(split, sent, refused)
            && (end == Done ==> split.fits && sent == split.pieces)
            && (end == Refused ==> |sent| == refused + 1)
            && (end == Fatal ==> !split.fits && sent == split.pieces)
  {
    if text.Length <= MAXCOMMAND {
      sent, end := [text[..]], Done;
    } else {
      sent, end := SendPieces(text, refused);
    }
  }

  /** The pieces of split are those sent and those of the rest. */
  ghost predicate Remaining(split: Split, sent: seq<string>, rest: string) {
    split.fits == Pieces(rest).fits && split.pieces == sent + Pieces(rest).pieces
  }

  /** One piece later. */
  lemma {:induction false} PiecesStep(split: Split, sent: seq<string>, s: string)
    requires s != "" && Remaining(split, sent, s)
    ensures |s| <= MAXCOMMAND ==> split == Split(true, sent + [s])
    ensures |s| > MAXCOMMAND && Cut(s) > MAXCOMMAND ==> split == Split(false, sent)
    ensures |s| > MAXCOMMAND && Cut(s) <= MAXCOMMAND ==>
              Remaining(split, sent + [s[..Cut(s)]], s[Cut(s) + 1..]) && |sent| < |split.pieces|
  {
    if |s| > MAXCOMMAND && Cut(s) <= MAXCOMMAND {
      var (x, y) := (s[..Cut(s)], Pieces(s[Cut(s) + 1..]).pieces);
      assert sent + ([x] + y) == sent + [x] + y;
    }
  }

  /** The next piece of the text from a on, c characters long: all of it when it is the final part, up to
      a comma otherwise; c is too large when there is none. */
  method NextPiece(text: array<char>, a: nat) returns (piece: string, c: nat)
    requires a < text.Length
    modifies text
    ensures text[..] == old(text[..])
    ensures var rest := text[..][a..];
            if |rest| <= MAXCOMMAND then c == |rest| && piece == rest
            else c == Cut(rest) && (c <= MAXCOMMAND ==> piece == rest[..c])
  {
    var rest := text[..][a..];
    if |rest| <= MAXCOMMAND {
      return rest, |rest|;
    }
    c := FindComma(rest, MAXCOMMAND - 30);
    if c > MAXCOMMAND {
      return "", c;
    }
    text[a + c] := '\0';
    piece := text[a..a + c];
    text[a + c] := ',';
    assert piece == rest[..c];
    assert text[..] == old(text[..]);
  }

  method SendPieces(text: array<char>, refused: nat) returns (sent: seq<string>, end: End)
    modifies text
    ensures text[..] == old(text[..])
    ensures var split := Pieces(text[..]);
            && SentSoFar(split, sent, refused)
            && (end == Done ==> split.fits && sent == split.pieces)
            && (end == Refused ==> |sent| == refused + 1)
            && (end == Fatal ==> !split.fits && sent == split.pieces)
  {
    hide Pieces;
    sent := [];
    ghost var split, rest := Pieces(text[..]), text[..];
    var a: nat := 0;
    while a < text.Length
      invariant a <= text.Length && text[..] == old(text[..]) && rest == text[..][a..]
      invariant Remaining(split, sent, rest) && |sent| <= refused
    {
      hide Remaining, Cut;
      PiecesStep(split, sent, rest);
      var piece, c := NextPiece(text, a);
      if c > MAXCOMMAND {
        return sent, Fatal;
      }
      sent := sent + [piece];
      if a + c == text.Length {
        return sent, Done;
      }
      if |sent| == refused + 1 {
        RemainingPrefix(split, sent, rest[c + 1..]);
        return sent, Refused;
      }
      rest := rest[c + 1..];
      a := a + c + 1;
    }
    AllSent(split, sent);
    end := Done;
  }

  lemma RemainingPrefix(split: Split, sent: seq<string>, rest: string)
    requires Remaining(split, sent, rest)
    ensures |sent| <= |split.pieces| && sent == split.pieces[..|sent|]
  {
  }

  lemma AllSent(split: Split, sent: seq<string>)
    requires Remaining(split, sent, "")
    ensures split == Split(true, sent)
  {
  }

  method FindComma(s: string, k: nat) returns (c: nat)
    requires k <= |s|
    ensures c == CommaFrom(s, k)
  {
    c := k;
    while c < |s| && s[c] != ','
      invariant k <= c <= |s| && CommaFrom(s, c) == CommaFrom(s, k)
    {
      c := c + 1;
    }
  }
}
