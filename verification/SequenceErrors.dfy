/** Exactly which texts mail_sequence and mail_uid_sequence accept. */
module SequenceErrors {
  import opened Decimal
  import opened SequenceText
  import opened Sequences

  /** The position of the first c in s, its end when there is none. */
  function Upto(s: string, c: char): (p: nat)
    ensures p <= |s| && c !in s[..p] && (p < |s| ==> s[p] == c)
  {
    if s == "" || s[0] == c then 0
    else
      assert forall p :: 0 < p <= |s| ==> s[..p] == [s[0]] + s[1..][..p - 1];
      1 + Upto(s[1..], c)
  }

  /** A star where there is one, or digits alone whose value is neither zero nor above the largest number. */
  ghost predicate GoodNum(t: string, lim: Limits) {
    || (t == "*" && lim.star.Some?)
    || (t != "" && (forall i :: 0 <= i < |t| ==> '0' <= t[i] <= '9')
        && Number(t) != 0 && (lim.max.Some? ==> Number(t) <= lim.max.value))
  }

  /** One number, or two with a colon between them. */
  ghost predicate GoodElem(t: string, lim: Limits) {
    var p := Upto(t, ':');
    if p == |t| then GoodNum(t, lim) else GoodNum(t[..p], lim) && GoodNum(t[p + 1..], lim)
  }

  /** Elements with commas between them; one comma may follow the last. */
  ghost predicate IsSequence(s: string, lim: Limits)
    decreases |s|
  {
    s != "" ==>
      var c := Upto(s, ',');
      GoodElem(s[..c], lim) && (c < |s| ==> IsSequence(s[c + 1..], lim))
  }

  lemma {:induction false} UptoIs(s: string, c: char, p: nat)
    requires p <= |s| && c !in s[..p] && (p < |s| ==> s[p] == c)
    ensures Upto(s, c) == p
  {
    if p > 0 {
      assert s[..p][0] == s[0] && s[1..][..p - 1] == s[..p][1..];
      UptoIs(s[1..], c, p - 1);
    }
  }

  predicate Delimiter(c: char) {
    c == ',' || c == ':'
  }

  /** The number a text starts with is good, and ends where it should. */
  lemma {:induction false} NumPrefix(s: string, q: nat, lim: Limits)
    requires q <= |s| && (q < |s| ==> Delimiter(s[q]))
    ensures NumValue(s, lim).Some? && NumLength(s) == q <==> GoodNum(s[..q], lim)
  {
    var t := s[..q];
    if s != "" && s[0] == '*' {
      assert q == 1 <==> t == "*";
      assert t != "" ==> t[0] == '*';
    } else {
      assert t != "" ==> t[0] == s[0];
      assert AllDigits(s[..Run(s)]);
      if AllDigits(t) {
        RunIs(s, q);
        assert t[..q] == t;
        RunIs(t, q);
      }
    }
  }

  /** No delimiter inside a number, and no c before the first c. */
  lemma {:induction false} NumHasNone(s: string)
    ensures forall i :: 0 <= i < NumLength(s) ==> !Delimiter(s[i])
  {
    if s == "" || s[0] != '*' {
      var t := s[..Run(s)];
      assert AllDigits(t);
      forall i | 0 <= i < Run(s)
        ensures !Delimiter(s[i])
      {
        assert IsDigit(t[i]);
      }
    }
  }

  lemma UptoMisses(s: string, c: char)
    ensures forall i :: 0 <= i < Upto(s, c) ==> s[i] != c
  {
    var t := s[..Upto(s, c)];
    forall i | 0 <= i < Upto(s, c)
      ensures s[i] != c
    {
      assert t[i] in t;
    }
  }

  /** What ParseOne makes of an element that ends at c. */
  ghost predicate ReadsElem(s: string, c: nat, lim: Limits)
    requires s != "" && c <= |s|
  {
    && (ParseOne(s, lim).Good? <==> GoodElem(s[..c], lim))
    && (ParseOne(s, lim).Good? ==> ParseOne(s, lim).length == c + if c < |s| then 1 else 0)
  }

  /** A single number with a comma or the end after it. */
  lemma {:induction false} SingleElem(s: string, c: nat, lim: Limits)
    requires s != "" && c == Upto(s, ',') && Upto(s[..c], ':') == c
    ensures ReadsElem(s, c, lim)
  {
    hide NumValue, NumLength, GoodNum, Upto;
    var t := s[..c];
    UptoMisses(s, ',');
    UptoMisses(t, ':');
    assert forall i :: 0 <= i < c ==> s[i] == t[i];
    NumPrefix(s, c, lim);
    NumHasNone(s);
  }

  /** Two numbers, the colon at p. */
  lemma {:induction false} RangeElem(s: string, c: nat, p: nat, lim: Limits)
    requires s != "" && c == Upto(s, ',') && p == Upto(s[..c], ':') < c
    ensures ReadsElem(s, c, lim)
  {
    hide NumValue, NumLength, GoodNum, Upto;
    var (t, u) := (s[..c], s[p + 1..]);
    UptoMisses(s, ',');
    UptoMisses(t, ':');
    assert forall i :: 0 <= i < c ==> s[i] == t[i];
    assert t[..p] == s[..p] && t[p + 1..] == u[..c - p - 1];
    assert forall i :: 0 <= i < |u| ==> u[i] == s[p + 1 + i];
    NumPrefix(s, p, lim);
    NumHasNone(s);
    NumPrefix(u, c - p - 1, lim);
    NumHasNone(u);
  }

  lemma ScannedIs(s: string, lim: Limits)
    ensures Scanned(s, lim).ok
            <==> s == "" || (ParseOne(s, lim).Good? && Scanned(s[ParseOne(s, lim).length..], lim).ok)
  {
  }

  /** A text is accepted if and only if it is a sequence whose numbers are in range. */
  lemma {:induction false} AcceptsExactly(s: string, lim: Limits)
    ensures Scanned(s, lim).ok <==> IsSequence(s, lim)
    decreases |s|
  {
    hide ParseOne, GoodElem, Scanned, Upto;
    ScannedIs(s, lim);
    if s != "" {
      var c := Upto(s, ',');
      if Upto(s[..c], ':') == c {
        SingleElem(s, c, lim);
      } else {
        RangeElem(s, c, Upto(s[..c], ':'), lim);
      }
      if c < |s| {
        AcceptsExactly(s[c + 1..], lim);
      } else {
        ScannedIs("", lim);
        assert s[c..] == "";
      }
    }
  }
}
