/** Rewriting a message sequence: imap_reform_sequence turns every range to run upwards. */
module Rewriting {
  import opened Buffers
  import opened Decimal
  import opened SequenceText
  import opened Sequences

  // ----- imap_reform_sequence -----

  /** The first comma or colon. */
  function Break(s: string): (b: nat)
    ensures b <= |s|
    ensures b < |s| ==> s[b] == ',' || s[b] == ':'
  {
    if s == "" || s[0] == ',' || s[0] == ':' then 0 else 1 + Break(s[1..])
  }

  /** The number at the start of s, * standing for star. */
  function Bound(s: string, star: nat): nat {
    if s != "" && s[0] == '*' then star else Number(s)
  }

  function BoundLength(s: string): (q: nat)
    ensures q <= |s|
  {
    if s != "" && s[0] == '*' then 1 else Run(s)
  }

  /** A range as imap_reform_sequence writes it; s starts with it and b is its colon. */
  function RangeText(s: string, b: nat, star: nat): string
    requires b < |s|
  {
    var t := s[b + 1..];
    var second := t[..BoundLength(t)];
    if Bound(s, star) <= Bound(t, star) then s[..b + 1] + second else second + [':'] + s[..b]
  }

  /** Where the range ends. */
  function RangeEnd(s: string, b: nat): (e: nat)
    requires b < |s|
    ensures b < e <= |s|
  {
    b + 1 + BoundLength(s[b + 1..])
  }

  ghost function Reformed(s: string, star: nat): string
    decreases |s|
  {
    var b := Break(s);
    if b == |s| then s
    else if s[b] == ',' then s[..b + 1] + Reformed(s[b + 1..], star)
    else
      var e := RangeEnd(s, b);
      if e == |s| then RangeText(s, b, star)
      else RangeText(s, b, star) + ([s[e]] + Reformed(s[e + 1..], star))
  }

  lemma RangeTextLength(s: string, b: nat, star: nat)
    requires b < |s|
    ensures |RangeText(s, b, star)| == RangeEnd(s, b)
  {
  }

  /** Whatever the text, its length is kept, so the new one fits the allocation. */
  lemma {:induction false} ReformedLength(s: string, star: nat)
    ensures |Reformed(s, star)| == |s|
    decreases |s|
  {
    hide RangeText, RangeEnd, Break;
    var b := Break(s);
    if b < |s| {
      if s[b] == ',' {
        ReformedLength(s[b + 1..], star);
      } else {
        RangeTextLength(s, b, star);
        var e := RangeEnd(s, b);
        if e < |s| {
          ReformedLength(s[e + 1..], star);
        }
      }
    }
  }

  /** An element with its range running upwards. */
  function Upward(e: Elem, star: nat): (u: Elem)
    ensures u.First(star) <= u.Second(star)
    ensures u == e || (e.Range? && e.First(star) > e.Second(star))
  {
    if e.First(star) <= e.Second(star) then e else Range(e.b, e.a)
  }

  function AllUpward(elems: seq<Elem>, star: nat): (r: seq<Elem>)
    ensures |r| == |elems|
  {
    if elems == [] then [] else [Upward(elems[0], star)] + AllUpward(elems[1..], star)
  }

  lemma {:induction false} AllUpwardAt(elems: seq<Elem>, star: nat, k: nat)
    requires k < |elems|
    ensures AllUpward(elems, star)[k] == Upward(elems[k], star)
  {
    if k > 0 {
      AllUpwardAt(elems[1..], star, k - 1);
    }
  }

  /** No separator inside a number. */
  lemma {:induction false} BreakIs(s: string, b: nat)
    requires b <= |s| && (forall i :: 0 <= i < b ==> s[i] != ',' && s[i] != ':')
    requires b < |s| ==> s[b] == ',' || s[b] == ':'
    ensures Break(s) == b
  {
    if b > 0 {
      BreakIs(s[1..], b - 1);
    }
  }

  lemma NumPlain(num: Num)
    ensures forall i :: 0 <= i < |num.Text()| ==> num.Text()[i] != ',' && num.Text()[i] != ':'
  {
  }

  lemma {:induction false} BoundOf(num: Num, rest: string, star: nat)
    requires rest != "" ==> !IsDigit(rest[0])
    ensures var s := num.Text() + rest;
            && Bound(s, star) == num.Val(star) && BoundLength(s) == |num.Text()|
            && s[..BoundLength(s)] == num.Text() && s[BoundLength(s)..] == rest
  {
    if num.Numeral? {
      ReadBack(num.n, rest);
    }
  }

  lemma {:induction false} ReformedAtComma(s: string, x: string, rest: string, star: nat)
    requires s == x + ([','] + rest) && Break(s) == |x|
    ensures Reformed(s, star) == x + ([','] + Reformed(rest, star))
  {
    assert s[..|x| + 1] == x + [','];
    assert s[|x| + 1..] == rest;
  }

  lemma {:induction false} ReformedAtColon(s: string, b: nat, e: nat, tail: string, star: nat)
    requires Break(s) == b < |s| && s[b] == ':' && e == RangeEnd(s, b) && s[e..] == tail
    requires tail != "" ==> tail[0] == ','
    ensures Reformed(s, star) == RangeText(s, b, star) + if tail == "" then "" else [','] + Reformed(tail[1..], star)
  {
    hide RangeText, RangeEnd;
    SuffixStep(s, e, tail);
  }

  lemma {:induction false} ReformSingle(a: Num, rest: string, star: nat)
    ensures Reformed(a.Text(), star) == a.Text()
    ensures Reformed(a.Text() + ([','] + rest), star) == a.Text() + ([','] + Reformed(rest, star))
  {
    var x := a.Text();
    var s := x + ([','] + rest);
    NumPlain(a);
    BreakIs(x, |x|);
    BreakIs(s, |x|);
    ReformedAtComma(s, x, rest, star);
  }

  /** The texts around the colon of a range. */
  lemma {:induction false} ColonSlices(x: string, t: string)
    ensures var s := x + ([':'] + t);
            s[|x|] == ':' && s[|x| + 1..] == t && s[..|x| + 1] == x + [':'] && s[..|x|] == x
  {
  }

  lemma {:induction false} RangeParts(a: Num, b: Num, tail: string, star: nat)
    requires tail != "" ==> tail[0] == ','
    ensures var (x, y) := (a.Text(), b.Text());
            var s := x + ([':'] + (y + tail));
            && Break(s) == |x| < |s| && s[|x|] == ':'
            && RangeText(s, |x|, star) == Upward(Range(a, b), star).Text()
            && RangeEnd(s, |x|) == |x| + 1 + |y|
  {
    hide Break, Bound, BoundLength;
    var (x, y) := (a.Text(), b.Text());
    var s := x + ([':'] + (y + tail));
    ColonSlices(x, y + tail);
    NumPlain(a);
    BreakIs(s, |x|);
    BoundOf(a, [':'] + (y + tail), star);
    BoundOf(b, tail, star);
  }

  lemma {:induction false} ReformRange(a: Num, b: Num, tail: string, star: nat)
    requires tail != "" ==> tail[0] == ','
    ensures Reformed(Range(a, b).Text() + tail, star)
            == Upward(Range(a, b), star).Text() + if tail == "" then "" else [','] + Reformed(tail[1..], star)
  {
    var (x, y) := (a.Text(), b.Text());
    var s := x + ([':'] + (y + tail));
    assert Range(a, b).Text() + tail == s;
    RangeParts(a, b, tail, star);
    assert s[|x| + 1 + |y|..] == tail;
    ReformedAtColon(s, |x|, |x| + 1 + |y|, tail, star);
  }

  /** On a sequence, it turns the ranges around and changes nothing else. */
  lemma {:induction false} ReformedText(elems: seq<Elem>, star: nat)
    ensures Reformed(SeqText(elems), star) == SeqText(AllUpward(elems, star))
  {
    if elems != [] {
      var up := AllUpward(elems, star);
      assert up[1..] == AllUpward(elems[1..], star);
      var rest := SeqText(elems[1..]);
      var tail := if |elems| == 1 then "" else [','] + rest;
      SeqTextSplit(elems);
      SeqTextSplit(up);
      ReformedText(elems[1..], star);
      if elems[0].Range? {
        ReformRange(elems[0].a, elems[0].b, tail, star);
      } else {
        ReformSingle(elems[0].a, rest, star);
        assert |elems| == 1 ==> elems[0].Text() + "" == elems[0].Text();
      }
    }
  }

  /** The reformed sequence denotes the same numbers, and every range in it runs upwards. */
  lemma ReformKeepsMeaning(elems: seq<Elem>, star: nat)
    ensures forall x :: Denoted(AllUpward(elems, star), star, x) <==> Denoted(elems, star, x)
    ensures forall k :: 0 <= k < |elems| ==>
              AllUpward(elems, star)[k].First(star) <= AllUpward(elems, star)[k].Second(star)
  {
    var up := AllUpward(elems, star);
    forall k | 0 <= k < |elems|
      ensures up[k] == Upward(elems[k], star)
    {
      AllUpwardAt(elems, star, k);
    }
    forall x: nat
      ensures Denoted(up, star, x) <==> Denoted(elems, star, x)
    {
      if Denoted(up, star, x) {
        var k :| 0 <= k < |up| && up[k].Denotes(star, x);
        assert elems[k].Denotes(star, x);
      }
      if Denoted(elems, star, x) {
        var k :| 0 <= k < |elems| && elems[k].Denotes(star, x);
        assert up[k].Denotes(star, x);
      }
    }
  }

  /** Read back as a sequence, the reformed text marks what the text marked. */
  lemma {:induction false} ReformMarksSame(elems: seq<Elem>, lim: Limits, x: nat)
    requires forall k :: 0 <= k < |elems| ==> lim.TakesElem(elems[k])
    ensures var (was, now) := (Scanned(SeqText(elems), lim), Scanned(Reformed(SeqText(elems), lim.StarValue()), lim));
            was.ok && now.ok && (Hits(now.pairs, x) <==> Hits(was.pairs, x))
  {
    var star := lim.StarValue();
    var up := AllUpward(elems, star);
    forall k | 0 <= k < |up|
      ensures lim.TakesElem(up[k])
    {
      AllUpwardAt(elems, star, k);
    }
    ReformedText(elems, star);
    ScanText(elems, lim);
    ScanText(up, lim);
    PairsMean(elems, star, x);
    PairsMean(up, star, x);
    ReformKeepsMeaning(elems, star);
  }

  /** The first comma or colon of s, or its end. */
  method FindBreak(s: string) returns (b: nat)
    ensures b == Break(s)
  {
    b := 0;
    while b < |s| && s[b] != ',' && s[b] != ':'
      invariant b <= |s| && forall i :: 0 <= i < b ==> s[i] != ',' && s[i] != ':'
    {
      b := b + 1;
    }
    BreakIs(s, b);
  }

  /** The bound s starts with, * standing for star, and its length. */
  method ReadBound(s: string, star: nat) returns (v: nat, q: nat)
    ensures v == Bound(s, star) && q == BoundLength(s)
  {
    if s != "" && s[0] == '*' {
      return star, 1;
    }
    assert s[0..] == s;
    v, q := ReadNumber(s, 0);
  }

  method EmitThree(rs: array<char>, r: nat, x: string, y: string, z: string) returns (r': nat)
    requires r + |x + y + z| <= rs.Length
    modifies rs
    ensures r' == r + |x + y + z| && rs[..r'] == old(rs[..r]) + (x + y + z)
  {
    r' := Emit(rs, r, x);
    r' := Emit(rs, r', y);
    r' := Emit(rs, r', z);
  }

  /** A range with its colon at s[b]. */
  method ReformOne(s: string, b: nat, star: nat, rs: array<char>, r: nat) returns (r': nat, e: nat)
    requires b < |s| && r + |RangeText(s, b, star)| <= rs.Length
    modifies rs
    ensures e == RangeEnd(s, b)
    ensures r' == r + |RangeText(s, b, star)| && rs[..r'] == old(rs[..r]) + RangeText(s, b, star)
  {
    var i, _ := ReadBound(s, star);
    var t := s[b + 1..];
    var j, q := ReadBound(t, star);
    e := b + 1 + q;
    if i <= j {
      assert s[..e] == s[..b + 1] + t[..q];
      r' := Emit(rs, r, s[..e]);
    } else {
      r' := EmitThree(rs, r, t[..q], [':'], s[..b]);
    }
  }

  /** The first item of s as it is written, and where the next one begins. */
  ghost function FirstItem(s: string, star: nat): string
    requires Break(s) < |s|
  {
    var b := Break(s);
    if s[b] == ',' then s[..b + 1] else RangeText(s, b, star) + s[RangeEnd(s, b)..NextItem(s)]
  }

  ghost function NextItem(s: string): (n: nat)
    requires Break(s) < |s|
    ensures Break(s) < n <= |s|
  {
    var b := Break(s);
    if s[b] == ',' then b + 1
    else
      var e := RangeEnd(s, b);
      if e < |s| then e + 1 else e
  }

  lemma {:induction false} ReformedSplit(s: string, star: nat, done: string)
    requires Break(s) < |s|
    ensures done + FirstItem(s, star) + Reformed(s[NextItem(s)..], star) == done + Reformed(s, star)
    ensures |FirstItem(s, star)| == NextItem(s)
  {
    hide FirstItem, NextItem, Reformed;
    FirstItemIs(s, star);
    Assoc(done, FirstItem(s, star), Reformed(s[NextItem(s)..], star));
  }

  lemma {:induction false} FirstItemIs(s: string, star: nat)
    requires Break(s) < |s|
    ensures Reformed(s, star) == FirstItem(s, star) + Reformed(s[NextItem(s)..], star)
    ensures |FirstItem(s, star)| == NextItem(s)
  {
    hide RangeText, RangeEnd, Break;
    var b := Break(s);
    if s[b] == ':' {
      var e := RangeEnd(s, b);
      RangeTextLength(s, b, star);
      if e < |s| {
        assert s[e..e + 1] == [s[e]];
        Assoc(RangeText(s, b, star), [s[e]], Reformed(s[e + 1..], star));
      }
    }
  }

  /** One round: the first item of s, with the separator after it. */
  method ReformRound(s: string, b: nat, star: nat, rs: array<char>, r: nat) returns (n: nat, r': nat)
    requires b == Break(s) < |s| && r + |FirstItem(s, star)| <= rs.Length
    modifies rs
    ensures n == NextItem(s)
    ensures r' == r + |FirstItem(s, star)| && rs[..r'] == old(rs[..r]) + FirstItem(s, star)
  {
    if s[b] == ',' {
      r' := Emit(rs, r, s[..b + 1]);
      n := b + 1;
    } else {
      var e;
      r', e := ReformOne(s, b, star, rs, r);
      n := e;
      if e < |s| {
        n := e + 1;
      }
      r' := Emit(rs, r', s[e..n]);
    }
  }

  /** imap_reform_sequence: a sequence for an empty mailbox is handed back as it is; star is the last message
      number or UID. */
  method ReformSequence(nmsgs: nat, lastUid: nat, byUid: bool, sequence: array<char>) returns (r: array<char>)
    requires sequence.Length > 0 && sequence[sequence.Length - 1] == '\0'
    ensures nmsgs == 0 ==> r == sequence
    ensures nmsgs != 0 ==> fresh(r) && r.Length == sequence.Length && r[r.Length - 1] == '\0'
    ensures nmsgs != 0 ==>
              r[..r.Length - 1] == Reformed(sequence[..sequence.Length - 1], if byUid then lastUid else nmsgs)
  {
    if nmsgs == 0 {
      return sequence;
    }
    r := ReformText(sequence[..sequence.Length - 1], if byUid then lastUid else nmsgs);
  }

  /** The loop over the items: the new text, in an allocation of the size of the old. */
  method ReformText(sequence: string, star: nat) returns (rs: array<char>)
    ensures fresh(rs) && rs.Length == |sequence| + 1
    ensures rs[..|sequence|] == Reformed(sequence, star) && rs[|sequence|] == '\0'
  {
    rs := new char[|sequence| + 1];
    var s, r: nat := sequence, 0;
    var b := FindBreak(s);
    while b < |s|
      invariant r + |s| == |sequence| && b == Break(s)
      invariant rs[..r] + Reformed(s, star) == Reformed(sequence, star)
      decreases |s|
    {
      ReformedSplit(s, star, rs[..r]);
      var n;
      n, r := ReformRound(s, b, star, rs, r);
      s := s[n..];
      b := FindBreak(s);
    }
    r := Emit(rs, r, s);
    rs[r] := '\0';
  }
}
