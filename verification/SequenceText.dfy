/** Message sequences as text: elements n, * and a:b, separated by commas, and how mail_sequence and
    mail_uid_sequence read one element. */
module SequenceText {
  import opened Decimal
  import opened Options

  datatype Num = Numeral(n: nat) | Star {
    function Text(): (s: string)
      ensures s != "" && (s[0] == '*' || IsDigit(s[0]))
    {
      if Star? then "*" else Digits(n)
    }

    function Val(star: nat): nat {
      if Star? then star else n
    }
  }

  datatype Elem = One(a: Num) | Range(a: Num, b: Num) {
    function Text(): string {
      if Range? then a.Text() + ":" + b.Text() else a.Text()
    }

    function First(star: nat): nat {
      a.Val(star)
    }

    function Second(star: nat): nat {
      if Range? then b.Val(star) else a.Val(star)
    }

    /** The numbers an element stands for; a range may run either way. */
    predicate Denotes(star: nat, x: nat) {
      First(star) <= x <= Second(star) || Second(star) <= x <= First(star)
    }
  }

  function SeqText(elems: seq<Elem>): string {
    if elems == [] then ""
    else if |elems| == 1 then elems[0].Text()
    else elems[0].Text() + ([','] + SeqText(elems[1..]))
  }

  ghost predicate Denoted(elems: seq<Elem>, star: nat, x: nat) {
    exists k :: 0 <= k < |elems| && elems[k].Denotes(star, x)
  }

  // ----- reading one element -----

  /** What a reader accepts: the value of *, if there is one, and the largest number, if there is one. */
  datatype Limits = Limits(star: Option<nat>, max: Option<nat>) {
    predicate Accepts(v: nat) {
      v != 0 && (max.Some? ==> v <= max.value)
    }

    predicate Takes(num: Num) {
      if num.Star? then star.Some? else Accepts(num.n)
    }

    predicate TakesElem(e: Elem) {
      Takes(e.a) && (e.Range? ==> Takes(e.b))
    }

    function StarValue(): nat {
      if star.Some? then star.value else 0
    }
  }

  function NumLength(s: string): (q: nat)
    ensures q <= |s|
  {
    if s != "" && s[0] == '*' then 1 else Run(s)
  }

  function NumValue(s: string, lim: Limits): Option<nat> {
    if s != "" && s[0] == '*' then lim.star
    else if lim.Accepts(Number(s)) then Some(Number(s))
    else None
  }

  datatype Parsed = Bad | Good(i: nat, j: nat, range: bool, length: nat)

  /** The element s starts with; length is what it takes up with the comma after it. */
  function ParseOne(s: string, lim: Limits): (r: Parsed)
    requires s != ""
    ensures r.Good? ==> 0 < r.length <= |s|
  {
    var i := NumValue(s, lim);
    var p := NumLength(s);
    if i.None? then Bad
    else if p == |s| then Good(i.value, i.value, false, p)
    else if s[p] == ',' then Good(i.value, i.value, false, p + 1)
    else if s[p] != ':' then Bad
    else
      var t := s[p + 1..];
      var j := NumValue(t, lim);
      var q := p + 1 + NumLength(t);
      if j.None? then Bad
      else if q == |s| then Good(i.value, j.value, true, q)
      else if s[q] == ',' then Good(i.value, j.value, true, q + 1)
      else Bad
  }

  lemma {:induction false} ParseNum(num: Num, lim: Limits, rest: string)
    requires lim.Takes(num) && (rest != "" ==> !IsDigit(rest[0]))
    ensures NumValue(num.Text() + rest, lim) == Some(num.Val(lim.StarValue()))
    ensures NumLength(num.Text() + rest) == |num.Text()|
  {
    if num.Numeral? {
      ReadBack(num.n, rest);
    }
  }

  lemma {:induction false} ParseSingle(a: Num, lim: Limits, rest: string)
    requires lim.Takes(a) && (rest != "" ==> rest[0] == ',')
    ensures var v := a.Val(lim.StarValue());
            ParseOne(a.Text() + rest, lim) == Good(v, v, false, |a.Text()| + if rest == "" then 0 else 1)
  {
    ParseNum(a, lim, rest);
  }

  lemma RangeText(x: string, y: string, rest: string)
    ensures var s := x + ([':'] + (y + rest));
            x + ":" + y + rest == s && |s| > |x| && s[|x|] == ':' && s[|x| + 1..] == y + rest
  {
  }

  lemma {:induction false} ParseRange(a: Num, b: Num, lim: Limits, rest: string)
    requires lim.Takes(a) && lim.Takes(b) && (rest != "" ==> rest[0] == ',')
    ensures var star := lim.StarValue();
            ParseOne(a.Text() + ":" + b.Text() + rest, lim)
            == Good(a.Val(star), b.Val(star), true, |a.Text()| + 1 + |b.Text()| + if rest == "" then 0 else 1)
  {
    var (x, y) := (a.Text(), b.Text());
    RangeText(x, y, rest);
    ParseNum(a, lim, [':'] + (y + rest));
    ParseNum(b, lim, rest);
    ParseRangeAt(x + ([':'] + (y + rest)), lim, |x|, y + rest, |y|);
  }

  lemma {:induction false} ParseRangeAt(s: string, lim: Limits, p: nat, t: string, q: nat)
    requires p == NumLength(s) < |s| && NumValue(s, lim).Some? && s[p] == ':' && s[p + 1..] == t
    requires q == NumLength(t) && NumValue(t, lim).Some? && (q < |t| ==> t[q] == ',')
    ensures ParseOne(s, lim) == Good(NumValue(s, lim).value, NumValue(t, lim).value, true,
                                     p + 1 + q + if q == |t| then 0 else 1)
  {
    assert q < |t| ==> s[p + 1 + q] == t[q];
  }

  /** An element that the reader takes is read back. */
  lemma {:induction false} ParseElem(e: Elem, lim: Limits, rest: string)
    requires lim.TakesElem(e) && (rest != "" ==> rest[0] == ',')
    ensures var star := lim.StarValue();
            ParseOne(e.Text() + rest, lim)
            == Good(e.First(star), e.Second(star), e.Range?, |e.Text()| + if rest == "" then 0 else 1)
  {
    if e.Range? {
      ParseRange(e.a, e.b, lim, rest);
    } else {
      ParseSingle(e.a, lim, rest);
    }
  }

  lemma {:induction false} SeqTextSplit(elems: seq<Elem>)
    requires elems != []
    ensures var rest := if |elems| == 1 then "" else [','] + SeqText(elems[1..]);
            SeqText(elems) == elems[0].Text() + rest
  {
    assert |elems| == 1 ==> elems[0].Text() + "" == elems[0].Text();
  }
}
