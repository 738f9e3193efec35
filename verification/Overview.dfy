/** The sequence imap_overview builds for its fetch: compressed into ranges, in a buffer that grows only
    when fewer than 20 characters are left. */
module Overview {
  import opened Buffers
  import opened Decimal
  import opened Options
  import opened SequenceText
  import opened Sequences

  const MAXMESSAGES: nat := 100000000
  const MAILTMPLEN: nat := 1024
  const RESERVE: nat := 20

  /** sprintf at position t of a buffer; the terminator must fit too. */
  method Sprint(buf: array<char>, t: nat, s: string) returns (t': nat)
    requires t + |s| < buf.Length
    modifies buf
    ensures t' == t + |s| && buf[..t'] == old(buf[..t]) + s && buf[t'] == '\0'
  {
    t' := Emit(buf, t, s);
    buf[t'] := '\0';
  }

  /** fs_resize to a larger size. */
  method Resize(buf: array<char>, n: nat) returns (more: array<char>)
    requires buf.Length <= n
    ensures fresh(more) && more.Length == n && more[..buf.Length] == buf[..]
  {
    more := new char[n];
    for i := 0 to buf.Length
      invariant more[..i] == buf[..i]
    {
      more[i] := buf[i];
    }
  }

  // ----- the text -----

  function Single(n: nat): Elem {
    One(Numeral(n))
  }

  /** The element for start to last. */
  function Run(start: nat, last: nat): Elem {
    if start == last then Single(start) else Range(Numeral(start), Numeral(last))
  }

  lemma Joined(x: string, y: string, z: string)
    ensures x + ([','] + (y + ([','] + z))) == x + ([','] + y) + ([','] + z)
  {
  }

  lemma {:induction false} SeqTextAppend(elems: seq<Elem>, e: Elem)
    ensures SeqText(elems + [e]) == if elems == [] then e.Text() else SeqText(elems) + ([','] + e.Text())
  {
    var all := elems + [e];
    if |elems| > 0 {
      assert all[1..] == elems[1..] + [e];
      SeqTextAppend(elems[1..], e);
      if |elems| > 1 {
        var (x, y, z) := (elems[0].Text(), SeqText(elems[1..]), e.Text());
        Joined(x, y, z);
      }
    }
  }

  /** A pending start, its range closed. */
  lemma {:induction false} CloseRun(elems: seq<Elem>, start: nat, last: nat)
    requires start != last
    ensures SeqText(elems + [Single(start)]) + ([':'] + Digits(last)) == SeqText(elems + [Run(start, last)])
  {
    SeqTextAppend(elems, Single(start));
    SeqTextAppend(elems, Run(start, last));
    var (x, y) := (Digits(start), Digits(last));
    assert Run(start, last).Text() == x + ([':'] + y);
    var s := SeqText(elems);
    assert s + ([','] + x) + ([':'] + y) == s + ([','] + (x + ([':'] + y)));
  }

  /** What is printed before the next range begins at i. */
  function Separator(start: nat, last: nat, i: nat): string {
    if start != last then [':'] + Digits(last) + ([','] + Digits(i)) else [','] + Digits(i)
  }

  lemma {:induction false} NextRun(elems: seq<Elem>, start: nat, last: nat, i: nat)
    ensures SeqText(elems + [Single(start)]) + Separator(start, last, i)
            == SeqText(elems + [Run(start, last)] + [Single(i)])
  {
    SeqTextAppend(elems + [Run(start, last)], Single(i));
    if start != last {
      CloseRun(elems, start, last);
      var (x, y, z) := (SeqText(elems + [Single(start)]), [':'] + Digits(last), [','] + Digits(i));
      assert x + (y + z) == x + y + z;
    }
  }

  /** The reserve is enough for a separator and its terminator: the two numbers cannot both have nine
      digits. */
  lemma {:induction false} SeparatorFits(start: nat, last: nat, i: nat)
    requires last < i <= MAXMESSAGES
    ensures |Separator(start, last, i)| + 1 <= RESERVE
  {
    assert Power10(8) == MAXMESSAGES by {
      assert Power10(4) == 10000;
    }
    DigitsFit(last, 8);
    DigitsFit(i, 9);
  }

  /** It is used up to the last character. */
  lemma ReserveIsTight()
    ensures |Separator(1, 99999998, MAXMESSAGES)| + 1 == RESERVE
  {
    DigitsLength(99999998, 8);
    DigitsLength(MAXMESSAGES, 9);
  }

  lemma {:induction false} DigitsLength(n: nat, k: nat)
    requires k > 0 && Power10(k) / 10 <= n < Power10(k)
    ensures |Digits(n)| == k
  {
    if n >= 10 {
      assert Power10(k) == 10 * Power10(k - 1);
      DigitsLength(n / 10, k - 1);
    }
  }

  // ----- the loop -----

  lemma DenotedAppend(elems: seq<Elem>, e: Elem, star: nat, x: nat)
    ensures Denoted(elems + [e], star, x) <==> Denoted(elems, star, x) || e.Denotes(star, x)
  {
    var all := elems + [e];
    if Denoted(elems, star, x) {
      var k :| 0 <= k < |elems| && elems[k].Denotes(star, x);
      assert all[k].Denotes(star, x);
    }
    if e.Denotes(star, x) {
      assert all[|elems|].Denotes(star, x);
    }
  }

  /** Ranges upwards, each beginning beyond the number after the one before: they could not be fewer. */
  ghost predicate Compressed(pairs: seq<Pair>) {
    && (forall k :: 0 <= k < |pairs| ==> pairs[k].0 <= pairs[k].1)
    && (forall k :: 0 < k < |pairs| ==> pairs[k - 1].1 + 1 < pairs[k].0)
  }

  /** Of messages 1 to i, the closed elements and the range in progress hold exactly those needed. */
  ghost predicate Covers(needed: seq<bool>, i: nat, elems: seq<Elem>, start: nat, last: nat)
    requires i <= |needed|
  {
    && 1 <= start <= last <= i
    && (forall x :: 1 <= x <= i ==> (needed[x - 1] <==> Denoted(elems, |needed|, x) || start <= x <= last))
    && (forall x :: i < x ==> !Denoted(elems, |needed|, x))
    && (forall k :: 0 <= k < |elems| ==> MsgnoLimits(|needed|).TakesElem(elems[k]))
    && Compressed(PairsOf(elems + [Run(start, last)], |needed|))
  }

  /** Closing the range in progress before the number after it. */
  lemma CompressedMore(elems: seq<Elem>, start: nat, last: nat, i: nat, star: nat)
    requires Compressed(PairsOf(elems + [Run(start, last)], star)) && last + 1 < i
    ensures Compressed(PairsOf(elems + [Run(start, last)] + [Run(i, i)], star))
  {
    var (p, q) := (PairsOf(elems + [Run(start, last)], star), PairsOf(elems + [Run(start, last)] + [Run(i, i)], star));
    assert q == p + [(i, i)];
    assert p[|elems|] == (start, last);
  }

  lemma CompressedLonger(elems: seq<Elem>, start: nat, last: nat, last': nat, star: nat)
    requires Compressed(PairsOf(elems + [Run(start, last)], star)) && start <= last <= last'
    ensures Compressed(PairsOf(elems + [Run(start, last')], star))
  {
    var (p, q) := (PairsOf(elems + [Run(start, last)], star), PairsOf(elems + [Run(start, last')], star));
    assert p[|elems|] == (start, last) && q == p[..|elems|] + [(start, last')];
  }

  /** The first needed message. */
  lemma {:induction false} CoversFirst(needed: seq<bool>, i: nat)
    requires i < |needed| && needed[i] && forall x :: 0 <= x < i ==> !needed[x]
    ensures Covers(needed, i + 1, [], i + 1, i + 1)
  {
  }

  /** A message that is not needed changes nothing. */
  lemma {:induction false} CoversSkip(needed: seq<bool>, i: nat, elems: seq<Elem>, start: nat, last: nat)
    requires i < |needed| && Covers(needed, i, elems, start, last) && !needed[i]
    ensures Covers(needed, i + 1, elems, start, last)
  {
    forall x | 1 <= x <= i + 1
      ensures needed[x - 1] <==> Denoted(elems, |needed|, x) || start <= x <= last
    {
      if x <= i {
        assert needed[x - 1] <==> Denoted(elems, |needed|, x) || start <= x <= last;
      }
    }
  }

  /** A needed message that follows on extends the range in progress. */
  lemma {:induction false} CoversExtend(needed: seq<bool>, i: nat, elems: seq<Elem>, start: nat, last: nat)
    requires i < |needed| && Covers(needed, i, elems, start, last) && needed[i] && last == i
    ensures Covers(needed, i + 1, elems, start, i + 1)
  {
    CompressedLonger(elems, start, last, i + 1, |needed|);
    forall x | 1 <= x <= i + 1
      ensures needed[x - 1] <==> Denoted(elems, |needed|, x) || start <= x <= i + 1
    {
      if x <= i {
        assert needed[x - 1] <==> Denoted(elems, |needed|, x) || start <= x <= last;
      }
    }
  }

  /** A needed message that does not follow on closes the range in progress. */
  lemma {:induction false} CoversNext(needed: seq<bool>, i: nat, elems: seq<Elem>, start: nat, last: nat)
    requires i < |needed| && Covers(needed, i, elems, start, last) && needed[i] && last < i
    ensures Covers(needed, i + 1, elems + [Run(start, last)], i + 1, i + 1)
  {
    CompressedMore(elems, start, last, i + 1, |needed|);
    forall x: nat
      ensures Denoted(elems + [Run(start, last)], |needed|, x) <==> Denoted(elems, |needed|, x) || start <= x <= last
    {
      DenotedAppend(elems, Run(start, last), |needed|, x);
    }
  }

  /** All closed, the elements hold exactly the needed messages. */
  lemma {:induction false} CoversAll(needed: seq<bool>, elems: seq<Elem>, start: nat, last: nat)
    requires Covers(needed, |needed|, elems, start, last)
    ensures var scan := Scanned(SeqText(elems + [Run(start, last)]), MsgnoLimits(|needed|));
            && scan.ok && Compressed(scan.pairs)
            && forall x :: 0 <= x < |needed| ==> (Hits(scan.pairs, x + 1) <==> needed[x])
  {
    var (all, n) := (elems + [Run(start, last)], |needed|);
    ScanText(all, MsgnoLimits(n));
    forall x | 0 <= x < n
      ensures Hits(PairsOf(all, n), x + 1) <==> needed[x]
    {
      hide PairsOf, Hits, Denoted;
      PairsMean(all, n, x + 1);
      DenotedAppend(elems, Run(start, last), n, x + 1);
      NeededAt(needed, elems, start, last, x);
    }
  }

  lemma NeededAt(needed: seq<bool>, elems: seq<Elem>, start: nat, last: nat, x: nat)
    requires Covers(needed, |needed|, elems, start, last) && x < |needed|
    ensures needed[x] <==> Denoted(elems, |needed|, x + 1) || Run(start, last).Denotes(|needed|, x + 1)
  {
    assert needed[x + 1 - 1] <==> Denoted(elems, |needed|, x + 1) || start <= x + 1 <= last;
  }

  /** The buffer holds the text so far, the range in progress by its start only. */
  ghost predicate Holds(buf: array<char>, t: nat, elems: seq<Elem>, start: nat)
    reads buf
  {
    && t + RESERVE <= buf.Length && buf[t] == '\0'
    && buf[..t] == SeqText(elems + [Single(start)])
  }

  /** End of range: print it and the next start, and grow the buffer when the reserve is used up. */
  method EndRange(buf: array<char>, t: nat, ghost elems: seq<Elem>, start: nat, last: nat, i: nat)
    returns (buf': array<char>, t': nat)
    requires Holds(buf, t, elems, start) && last < i <= MAXMESSAGES
    modifies buf
    ensures Holds(buf', t', elems + [Run(start, last)], i)
    ensures buf' == buf || fresh(buf')
  {
    SeparatorFits(start, last, i);
    NextRun(elems, start, last, i);
    if last != start {
      t' := Sprint(buf, t, [':'] + Digits(last) + ([','] + Digits(i)));
    } else {
      t' := Sprint(buf, t, [','] + Digits(i));
    }
    buf' := buf;
    if buf.Length - t' < RESERVE {
      ghost var was := buf[..];
      buf' := Resize(buf, buf.Length + MAILTMPLEN);
      assert buf'[..t'] == was[..t'];
      assert buf'[t'] == buf'[..buf.Length][t'] == was[t'];
    }
  }

  /** The first needed message: a new buffer. */
  method StartBuffer(i: nat) returns (buf: array<char>, t: nat)
    requires i <= MAXMESSAGES
    ensures fresh(buf) && Holds(buf, t, [], i)
  {
    buf := new char[MAILTMPLEN];
    LastFits(i);
    t := Sprint(buf, 0, Digits(i));
    assert [] + [Single(i)] == [Single(i)];
  }

  lemma LastFits(n: nat)
    requires n <= MAXMESSAGES
    ensures |Digits(n)| <= 9
  {
    assert Power10(9) > MAXMESSAGES by {
      assert Power10(4) == 10000;
    }
    DigitsFit(n, 9);
  }

  /** A needed message when there is a range in progress. */
  method Continue(needed: seq<bool>, buf: array<char>, t: nat, ghost elems: seq<Elem>, start: nat, last: nat, i: nat)
    returns (buf': array<char>, t': nat, ghost elems': seq<Elem>, start': nat, last': nat)
    requires 1 <= i <= |needed| <= MAXMESSAGES && needed[i - 1]
    requires Holds(buf, t, elems, start) && Covers(needed, i - 1, elems, start, last) && needed[start - 1]
    modifies buf
    ensures Holds(buf', t', elems', start') && Covers(needed, i, elems', start', last')
    ensures needed[start' - 1]
    ensures buf' == buf || fresh(buf')
  {
    if i == last + 1 {
      CoversExtend(needed, i - 1, elems, start, last);
      return buf, t, elems, start, i;
    }
    CoversNext(needed, i - 1, elems, start, last);
    buf', t' := EndRange(buf, t, elems, start, last, i);
    elems', start', last' := elems + [Run(start, last)], i, i;
  }

  /** After the last message: close the range in progress. */
  method Finish(needed: seq<bool>, buf: array<char>, t: nat, ghost elems: seq<Elem>, start: nat, last: nat)
    returns (t': nat)
    requires |needed| <= MAXMESSAGES
    requires Holds(buf, t, elems, start) && Covers(needed, |needed|, elems, start, last)
    modifies buf
    ensures t' <= buf.Length
    ensures var scan := Scanned(buf[..t'], MsgnoLimits(|needed|));
            && scan.ok && Compressed(scan.pairs)
            && forall x :: 0 <= x < |needed| ==> (Hits(scan.pairs, x + 1) <==> needed[x])
  {
    t' := t;
    CoversAll(needed, elems, start, last);
    if last != start {
      CloseRun(elems, start, last);
      LastFits(last);
      t' := Sprint(buf, t, [':'] + Digits(last));
    }
  }

  /** The sequence builder of imap_overview; needed are the messages with their sequence bit set and no
      envelope yet.  What mail_sequence reads from the text are exactly these. */
  method BuildSequence(needed: seq<bool>) returns (text: Option<string>)
    requires |needed| <= MAXMESSAGES
    ensures text.None? <==> forall x :: 0 <= x < |needed| ==> !needed[x]
    ensures text.Some? ==>
              (var scan := Scanned(text.value, MsgnoLimits(|needed|));
               && scan.ok && Compressed(scan.pairs)
               && forall x :: 0 <= x < |needed| ==> (Hits(scan.pairs, x + 1) <==> needed[x]))
  {
    hide Holds, Denoted;
    var buf := new char[0];
    var any := false;
    var t: nat, start: nat, last: nat, i: nat := 0, 0, 0, 0;
    ghost var elems: seq<Elem> := [];
    while i < |needed|
      invariant i <= |needed| && fresh(buf)
      invariant any ==> Holds(buf, t, elems, start) && Covers(needed, i, elems, start, last)
      invariant any ==> needed[start - 1]
      invariant !any ==> forall x :: 0 <= x < i ==> !needed[x]
    {
      i := i + 1;
      if needed[i - 1] {
        if any {
          buf, t, elems, start, last := Continue(needed, buf, t, elems, start, last, i);
        } else {
          CoversFirst(needed, i - 1);
          buf, t := StartBuffer(i);
          elems, start, last, any := [], i, i, true;
        }
      } else if any {
        CoversSkip(needed, i - 1, elems, start, last);
      }
    }
    if !any {
      return None;
    }
    t := Finish(needed, buf, t, elems, start, last);
    text := Some(buf[..t]);
  }
}
