/** Unique identifiers: mail_msgno looks one up by binary search, mail_uid_sequence marks the messages a
    sequence of them stands for. */
module UidSequences {
  import opened Options
  import opened SequenceText
  import opened Sequences

  ghost predicate Ascending(uids: seq<nat>) {
    forall a, b :: 0 <= a < b < |uids| ==> uids[a] < uids[b]
  }

  /** mail_msgno when the whole map is known: the number of the message with that unique identifier, zero
      when there is none. */
  method MailMsgno(uids: seq<nat>, uid: nat) returns (msgno: nat)
    requires Ascending(uids)
    ensures msgno <= |uids|
    ensures if uid in uids then msgno > 0 && uids[msgno - 1] == uid else msgno == 0
  {
    var first: nat, last: nat := 1, |uids|;
    var delta: nat := if first <= last then 1 else 0;
    while delta > 0 && uid >= uids[first - 1] && uid <= uids[last - 1]
      invariant 1 <= first && last <= |uids| && (first <= last || delta == 0)
      invariant uid in uids ==> first <= last && uid in uids[first - 1..last]
      invariant delta == 0 ==> uid !in uids
      decreases last - first, delta
    {
      var firstuid, lastuid := uids[first - 1], uids[last - 1];
      if uid == firstuid {
        return first;
      }
      if uid == lastuid {
        return last;
      }
      delta := (last - first) / 2;
      if delta > 0 {
        var middle := first + delta;
        var miduid := uids[middle - 1];
        if miduid == uid {
          return middle;
        } else if uid < miduid {
          last := middle - 1;
        } else {
          first := middle + 1;
        }
      }
    }
    msgno := 0;
  }

  /** Any number but zero; * is the last message's unique identifier, or the highest one seen. */
  function UidLimits(uids: seq<nat>, uidLast: nat): Limits {
    Limits(Some(if uids != [] then uids[|uids| - 1] else uidLast), None)
  }

  /** The sequence bits of the messages in a stream, looked at by unique identifier. */
  class UidBits {
    const uids: seq<nat>
    var bits: seq<bool>

    ghost predicate Valid()
      reads this
    {
      |bits| == |uids| && Ascending(uids)
    }

    constructor (uids: seq<nat>)
      requires Ascending(uids)
      ensures Valid() && this.uids == uids
    {
      this.uids := uids;
      bits := seq(|uids|, x => false);
    }

    /** Exactly the messages whose unique identifier is in the pairs are marked. */
    ghost predicate Marked(pairs: seq<Pair>)
      requires Valid()
      reads this
    {
      forall x :: 0 <= x < |bits| ==> (bits[x] <==> Hits(pairs, uids[x]))
    }

    /** Both ends valid: from message x to message y. */
    method MarkBetween(x: nat, y: nat)
      requires Valid() && 1 <= x && y <= |uids|
      modifies this
      ensures Valid()
      ensures forall m :: 0 <= m < |bits| ==> (bits[m] <==> old(bits)[m] || x <= m + 1 <= y)
    {
      var k := x;
      while k <= y
        invariant Valid() && x <= k && (k <= y + 1 || k == x)
        invariant forall m :: 0 <= m < |bits| ==> (bits[m] <==> old(bits)[m] || (x <= m + 1 < k))
      {
        bits := bits[k - 1 := true];
        k := k + 1;
      }
    }

    /** Only the start valid: from message x on while the unique identifier is not above j. */
    method MarkUpTo(x: nat, j: nat)
      requires Valid() && 1 <= x
      modifies this
      ensures Valid()
      ensures forall m :: 0 <= m < |bits| ==> (bits[m] <==> old(bits)[m] || (x <= m + 1 && uids[m] <= j))
    {
      var k := x;
      while k <= |uids| && uids[k - 1] <= j
        invariant Valid() && x <= k
        invariant forall m :: x <= m + 1 < k && m < |uids| ==> uids[m] <= j
        invariant forall m :: 0 <= m < |bits| ==> (bits[m] <==> old(bits)[m] || (x <= m + 1 < k))
      {
        bits := bits[k - 1 := true];
        k := k + 1;
      }
    }

    /** Only the end valid: the messages up to y with a unique identifier from i on. */
    method MarkFrom(y: nat, i: nat)
      requires Valid() && y <= |uids|
      modifies this
      ensures Valid()
      ensures forall m :: 0 <= m < |bits| ==> (bits[m] <==> old(bits)[m] || (m < y && i <= uids[m]))
    {
      for k := 0 to y
        invariant Valid()
        invariant forall m :: 0 <= m < |bits| ==> (bits[m] <==> old(bits)[m] || (m < k && i <= uids[m]))
      {
        if uids[k] >= i {
          bits := bits[k := true];
        }
      }
    }

    /** Neither valid: every message is tested. */
    method MarkTested(i: nat, j: nat)
      requires Valid()
      modifies this
      ensures Valid()
      ensures forall m :: 0 <= m < |bits| ==> (bits[m] <==> old(bits)[m] || i <= uids[m] <= j)
    {
      for k := 0 to |uids|
        invariant Valid()
        invariant forall m :: 0 <= m < |bits| ==> (bits[m] <==> old(bits)[m] || (m < k && i <= uids[m] <= j))
      {
        if uids[k] >= i && uids[k] <= j {
          bits := bits[k := true];
        }
      }
    }

    /** One range, whichever of its ends are unique identifiers of messages. */
    method MarkRange(i0: nat, j0: nat)
      requires Valid()
      modifies this
      ensures Valid()
      ensures forall m :: 0 <= m < |bits| ==> (bits[m] <==> old(bits)[m] || Between((i0, j0), uids[m]))
    {
      var i, j := i0, j0;
      if i > j {
        i, j := j, i;
      }
      var x := MailMsgno(uids, i);
      var y := MailMsgno(uids, j);
      if x > 0 && y > 0 {
        MarkBetween(x, y);
      } else if x > 0 {
        MarkUpTo(x, j);
      } else if y > 0 {
        MarkFrom(y, i);
      } else {
        MarkTested(i, j);
      }
    }

    /** One element. */
    method MarkElement(e: Parsed)
      requires Valid() && e.Good? && (!e.range ==> e.i == e.j)
      modifies this
      ensures Valid()
      ensures forall m :: 0 <= m < |bits| ==> (bits[m] <==> old(bits)[m] || Between((e.i, e.j), uids[m]))
    {
      if e.range {
        MarkRange(e.i, e.j);
      } else {
        var x := MailMsgno(uids, e.i);
        if x > 0 {
          bits := bits[x - 1 := true];
        }
      }
    }

    /** The next element of rest, marked; all is the scan of the whole text and done what is read of it. */
    method MarkNext(rest: string, lim: Limits, ghost all: Scan, ghost done: seq<Pair>)
      returns (ok: bool, next: string, ghost done': seq<Pair>)
      requires rest != "" && Valid() && Left(all, done, rest, lim) && Marked(done)
      modifies this
      ensures Valid() && Marked(done')
      ensures if ok then |next| < |rest| && Left(all, done', next, lim) else all == Scan(false, done')
    {
      hide Left, Hits, Scanned, ParseOne;
      done', next := done, rest;
      ScanStep(all, done, rest, lim);
      assert rest[0..] == rest;
      var e := ReadElem(rest, 0, lim);
      ok := e.Good?;
      if ok {
        SingleIsEqual(rest, lim);
        HitsOneMore(done, (e.i, e.j));
        MarkElement(e);
        done', next := done + [(e.i, e.j)], rest[e.length..];
      }
    }

    /** mail_uid_sequence: exactly the messages whose unique identifier is in an element read are marked,
        those of the whole text when there is no error. */
    method MailUidSequence(sequence: string, uidLast: nat) returns (ok: bool)
      requires Valid()
      modifies this
      ensures Valid()
      ensures ok == Scanned(sequence, UidLimits(uids, uidLast)).ok
      ensures Marked(Scanned(sequence, UidLimits(uids, uidLast)).pairs)
    {
      bits := seq(|bits|, x => false);
      var lim := UidLimits(uids, uidLast);
      var s := sequence;
      ghost var done: seq<Pair> := [];
      ghost var all := Scanned(s, lim);
      while s != ""
        invariant Valid() && Left(all, done, s, lim) && Marked(done)
        decreases |s|
      {
        ok, s, done := MarkNext(s, lim, all, done);
        if !ok {
          return;
        }
      }
      ScanEnd(all, done, lim);
      ok := true;
    }
  }

  lemma SingleIsEqual(s: string, lim: Limits)
    requires s != ""
    ensures var r := ParseOne(s, lim); r.Good? && !r.range ==> r.i == r.j
  {
  }

  /** So on a text of elements without a zero in them it marks exactly the messages they denote. */
  lemma SequenceOfUids(elems: seq<Elem>, uids: seq<nat>, uidLast: nat)
    requires forall k :: 0 <= k < |elems| ==> UidLimits(uids, uidLast).TakesElem(elems[k])
    ensures var scan := Scanned(SeqText(elems), UidLimits(uids, uidLast));
            && scan.ok
            && forall x :: Hits(scan.pairs, x) <==> Denoted(elems, UidLimits(uids, uidLast).StarValue(), x)
  {
    ScanText(elems, UidLimits(uids, uidLast));
    forall x: nat
      ensures Hits(PairsOf(elems, UidLimits(uids, uidLast).StarValue()), x)
              <==> Denoted(elems, UidLimits(uids, uidLast).StarValue(), x)
    {
      PairsMean(elems, UidLimits(uids, uidLast).StarValue(), x);
    }
  }
}
