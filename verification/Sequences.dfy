/** Message sequences: mail_sequence reads one and marks its messages. */
module Sequences {
  import opened Decimal
  import opened Options
  import opened SequenceText

  /** A pair of numbers read from the text, in the order they stand there. */
  type Pair = (nat, nat)

  predicate Between(p: Pair, x: nat) {
    p.0 <= x <= p.1 || p.1 <= x <= p.0
  }

  ghost predicate Hits(pairs: seq<Pair>, x: nat) {
    exists k :: 0 <= k < |pairs| && Between(pairs[k], x)
  }

  /** The elements of a text up to its end or its first error. */
  datatype Scan = Scan(ok: bool, pairs: seq<Pair>)

  ghost function Scanned(s: string, lim: Limits): Scan
    decreases |s|
  {
    if s == "" then Scan(true, [])
    else
      match ParseOne(s, lim)
      case Bad => Scan(false, [])
      case Good(i, j, _, length) =>
        var rest := Scanned(s[length..], lim);
        Scan(rest.ok, [(i, j)] + rest.pairs)
  }

  function PairsOf(elems: seq<Elem>, star: nat): seq<Pair> {
    seq(|elems|, k requires 0 <= k < |elems| => (elems[k].First(star), elems[k].Second(star)))
  }

  lemma PairsMean(elems: seq<Elem>, star: nat, x: nat)
    ensures Hits(PairsOf(elems, star), x) <==> Denoted(elems, star, x)
  {
    var pairs := PairsOf(elems, star);
    if Denoted(elems, star, x) {
      var k :| 0 <= k < |elems| && elems[k].Denotes(star, x);
      assert Between(pairs[k], x);
    }
    if Hits(pairs, x) {
      var k :| 0 <= k < |pairs| && Between(pairs[k], x);
      assert elems[k].Denotes(star, x);
    }
  }

  /** Of the whole scan, the pairs in done are read and s is left. */
  ghost predicate Left(all: Scan, done: seq<Pair>, s: string, lim: Limits) {
    all.ok == Scanned(s, lim).ok && all.pairs == done + Scanned(s, lim).pairs
  }

  /** One element later. */
  lemma {:induction false} ScanStep(all: Scan, done: seq<Pair>, s: string, lim: Limits)
    requires s != "" && Left(all, done, s, lim)
    ensures ParseOne(s, lim).Bad? ==> all == Scan(false, done)
    ensures match ParseOne(s, lim)
            case Bad => true
            case Good(i, j, _, length) => Left(all, done + [(i, j)], s[length..], lim)
  {
    match ParseOne(s, lim) {
      case Bad =>
      case Good(i, j, _, length) =>
        var rest := Scanned(s[length..], lim).pairs;
        assert done + ([(i, j)] + rest) == done + [(i, j)] + rest;
    }
  }

  lemma ScanEnd(all: Scan, done: seq<Pair>, lim: Limits)
    requires Left(all, done, "", lim)
    ensures all == Scan(true, done)
  {
  }

  /** A text whose elements the reader takes is read back whole. */
  lemma {:induction false} ScanText(elems: seq<Elem>, lim: Limits)
    requires forall k :: 0 <= k < |elems| ==> lim.TakesElem(elems[k])
    ensures Scanned(SeqText(elems), lim) == Scan(true, PairsOf(elems, lim.StarValue()))
  {
    var star := lim.StarValue();
    if elems != [] {
      var e, rest := elems[0], elems[1..];
      var tail := if |elems| == 1 then "" else [','] + SeqText(rest);
      SeqTextSplit(elems);
      ParseElem(e, lim, tail);
      ScanStep(Scanned(SeqText(elems), lim), [], SeqText(elems), lim);
      assert SeqText(elems)[|e.Text()| + if tail == "" then 0 else 1..] == SeqText(rest);
      ScanText(rest, lim);
      PairsStep(elems, star);
    }
  }

  lemma PairsStep(elems: seq<Elem>, star: nat)
    requires elems != []
    ensures PairsOf(elems, star) == [(elems[0].First(star), elems[0].Second(star))] + PairsOf(elems[1..], star)
  {
  }

  // ----- reading -----

  /** One number: * or digits. */
  method ReadNum(s: string, p: nat, lim: Limits) returns (v: Option<nat>, q: nat)
    requires p <= |s|
    ensures v == NumValue(s[p..], lim) && q == p + NumLength(s[p..]) <= |s|
  {
    if p < |s| && s[p] == '*' {
      return lim.star, p + 1;
    }
    var n;
    n, q := ReadNumber(s, p);
    v := if n == 0 || (lim.max.Some? && n > lim.max.value) then None else Some(n);
  }

  /** One element and the comma after it. */
  method ReadElem(s: string, p: nat, lim: Limits) returns (r: Parsed)
    requires p < |s|
    ensures r == ParseOne(s[p..], lim)
  {
    var i, q := ReadNum(s, p, lim);
    if i.None? {
      return Bad;
    }
    if q < |s| && s[q] == ':' {
      assert s[p..][q - p + 1..] == s[q + 1..];
      var j, t := ReadNum(s, q + 1, lim);
      if j.None? || (t < |s| && s[t] != ',') {
        return Bad;
      }
      r := Good(i.value, j.value, true, (if t < |s| then t + 1 else t) - p);
    } else if q < |s| && s[q] != ',' {
      r := Bad;
    } else {
      r := Good(i.value, i.value, false, (if q < |s| then q + 1 else q) - p);
    }
  }

  /** The sequence bits of the messages in a stream. */
  class SequenceBits {
    var bits: seq<bool>

    constructor (n: nat)
      ensures |bits| == n
    {
      bits := seq(n, x => false);
    }

    /** Mark messages i to j, counted down from j. */
    method MarkDown(i: nat, j: nat)
      requires 1 <= i && j <= |bits|
      modifies this
      ensures |bits| == old(|bits|)
      ensures forall x :: 0 <= x < |bits| ==> (bits[x] <==> old(bits)[x] || i <= x + 1 <= j)
    {
      var k: int := j;
      while i <= k
        invariant i - 1 <= k <= j || k == j
        invariant |bits| == old(|bits|)
        invariant forall x :: 0 <= x < |bits| ==> (bits[x] <==> old(bits)[x] || (k < x + 1 <= j && i <= x + 1))
      {
        bits := bits[k - 1 := true];
        k := k - 1;
      }
    }

    /** Mark the range between i and j, whichever way it runs. */
    method MarkRange(i: nat, j: nat)
      requires 1 <= i <= |bits| && 1 <= j <= |bits|
      modifies this
      ensures |bits| == old(|bits|)
      ensures forall x :: 0 <= x < |bits| ==> (bits[x] <==> old(bits)[x] || Between((i, j), x + 1))
    {
      if i > j {
        MarkDown(j, i);
      } else {
        MarkDown(i, j);
      }
    }

    /** The next element of rest, marked; all is the scan of the whole text and done what is read of it. */
    method MarkNext(rest: string, lim: Limits, ghost all: Scan, ghost done: seq<Pair>)
      returns (ok: bool, next: string, ghost done': seq<Pair>)
      requires rest != "" && lim == MsgnoLimits(|bits|) && Left(all, done, rest, lim) && Marked(done)
      modifies this
      ensures |bits| == old(|bits|) && Marked(done')
      ensures if ok then |next| < |rest| && Left(all, done', next, lim) else all == Scan(false, done')
    {
      hide Left, Hits, Scanned, ParseOne;
      done', next := done, rest;
      ScanStep(all, done, rest, lim);
      ParsedWithin(rest, lim);
      assert rest[0..] == rest;
      var e := ReadElem(rest, 0, lim);
      ok := e.Good?;
      if ok {
        HitsOneMore(done, (e.i, e.j));
        MarkRange(e.i, e.j);
        done', next := done + [(e.i, e.j)], rest[e.length..];
      }
    }

    /** mail_sequence: exactly the messages in the elements read are marked, those of the whole text
        when there is no error. */
    method MailSequence(sequence: string) returns (ok: bool)
      modifies this
      ensures |bits| == old(|bits|)
      ensures ok == Scanned(sequence, MsgnoLimits(|bits|)).ok
      ensures Marked(Scanned(sequence, MsgnoLimits(|bits|)).pairs)
    {
      bits := seq(|bits|, x => false);
      var lim := MsgnoLimits(|bits|);
      var s := sequence;
      ghost var done: seq<Pair> := [];
      ghost var all := Scanned(s, lim);
      while s != ""
        invariant |bits| == old(|bits|) && Left(all, done, s, lim) && Marked(done)
        decreases |s|
      {
        ok, s, done := MarkNext(s, lim, all, done);
        if !ok {
          return;
        }
      }
      ScanEnd(all, done, lim);
      ok := true;
    }

    /** Exactly the messages in the pairs are marked. */
    ghost predicate Marked(pairs: seq<Pair>)
      reads this
    {
      forall x :: 0 <= x < |bits| ==> (bits[x] <==> Hits(pairs, x + 1))
    }
  }

  /** Message numbers run from 1 to n, and * is n unless there is no message. */
  function MsgnoLimits(n: nat): Limits {
    Limits(if n > 0 then Some(n) else None, Some(n))
  }

  lemma ParsedWithin(s: string, lim: Limits)
    requires s != "" && lim.max.Some? && (lim.star.Some? ==> 1 <= lim.star.value <= lim.max.value)
    ensures var r := ParseOne(s, lim);
            r.Good? ==> 1 <= r.i <= lim.max.value && 1 <= r.j <= lim.max.value
  {
  }

  lemma HitsOneMore(pairs: seq<Pair>, p: Pair)
    ensures forall x :: Hits(pairs + [p], x) <==> Hits(pairs, x) || Between(p, x)
  {
    var more := pairs + [p];
    forall x: nat
      ensures Hits(more, x) <==> Hits(pairs, x) || Between(p, x)
    {
      if Hits(pairs, x) {
        var k :| 0 <= k < |pairs| && Between(pairs[k], x);
        assert Between(more[k], x);
      }
      if Between(p, x) {
        assert Between(more[|pairs|], x);
      }
    }
  }
}
