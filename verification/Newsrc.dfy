/** The read ranges of one newsgroup: newsrc_newmessages, newsrc_read and newsrc_check_uid.  Messages
    are numbered from zero here: uids[m] is the unique identifier of the message after the m-th. */
module Newsrc {
  import opened Buffers
  import opened Decimal

  type Uid = u: int | 0 < u witness 1

  predicate StrictlyAscending(uids: seq<Uid>) {
    forall a, b :: 0 <= a < b < |uids| ==> uids[a] < uids[b]
  }

  /** An element of the list: n, or lo-hi. */
  datatype Item = Single(lo: nat) | Span(lo: nat, high: nat) {
    function Hi(): nat {
      if Span? then high else lo
    }

    predicate Covers(uid: nat) {
      lo <= uid <= Hi()
    }

    function Text(): string {
      if Span? then Digits(lo) + "-" + Digits(high) else Digits(lo)
    }
  }

  /** The list, every element preceded by a separator, the first one by c. */
  function ListText(items: seq<Item>, c: char): string {
    if items == [] then "" else [c] + (items[0].Text() + ListText(items[1..], ','))
  }

  /** The list on its own. */
  function StateText(items: seq<Item>): string {
    if items == [] then "" else items[0].Text() + ListText(items[1..], ',')
  }

  predicate Denoted(items: seq<Item>, uid: nat) {
    items != [] && (items[0].Covers(uid) || Denoted(items[1..], uid))
  }

  /** Ascending and disjoint, from low on. */
  predicate Ascending(items: seq<Item>, low: nat) {
    items != [] ==> low <= items[0].lo <= items[0].Hi() && Ascending(items[1..], items[0].Hi() + 1)
  }

  /** The first number above the list. */
  function End(items: seq<Item>, low: nat): nat {
    if items == [] then low else End(items[1..], items[0].Hi() + 1)
  }

  lemma {:induction false} AscendingBounds(items: seq<Item>, low: nat, uid: nat)
    requires Ascending(items, low)
    ensures low <= End(items, low)
    ensures Denoted(items, uid) ==> low <= uid < End(items, low)
  {
    if items != [] {
      AscendingBounds(items[1..], items[0].Hi() + 1, uid);
    }
  }

  // ----- what newsrc_newmessages writes -----

  function ItemOf(j: nat, k: nat): Item {
    if j == k then Single(j) else Span(j, k)
  }

  /** The elements still to be written at message i, when j begins the range in progress (zero for
      none) and k is its top so far. */
  ghost function Written(uids: seq<Uid>, read: seq<bool>, i: nat, j: nat, k: nat): seq<Item>
    requires |read| == |uids|
    decreases |uids| - i
  {
    if i >= |uids| then if j != 0 then [ItemOf(j, k)] else []
    else if read[i] then Written(uids, read, i + 1, if j == 0 then uids[i] else j, uids[i])
    else if j == 0 then Written(uids, read, i + 1, 0, k)
    else
      var u: nat := uids[i];
      (if u > 1 then [ItemOf(j, u - 1)] else []) + Written(uids, read, i + 1, 0, u - 1)
  }

  /** Everything before the first message counts as read. */
  function FirstLow(uids: seq<Uid>): nat {
    if uids != [] && uids[0] > 1 then 1 else 0
  }

  ghost function WrittenList(uids: seq<Uid>, read: seq<bool>): seq<Item>
    requires |read| == |uids|
  {
    if uids == [] then [] else Written(uids, read, 0, FirstLow(uids), FirstLow(uids))
  }

  /** The range in progress at message i holds the messages from a on, all read. */
  ghost predicate InProgress(uids: seq<Uid>, read: seq<bool>, i: nat, a: nat, j: nat, k: nat, low: nat)
    requires |read| == |uids|
  {
    && a <= i <= |uids|
    && (j == 0 ==> a == i && (i < |uids| ==> low <= uids[i]))
    && (j != 0 ==> low <= j <= k && (i < |uids| ==> k < uids[i]))
    && (forall x :: a <= x < i ==> read[x] && j <= uids[x] <= k)
  }

  /** The elements ascend, and among the messages from a on they hold exactly the read ones. */
  lemma {:induction false} WrittenFacts(uids: seq<Uid>, read: seq<bool>, i: nat, a: nat, j: nat, k: nat, low: nat)
    requires |read| == |uids| && StrictlyAscending(uids) && InProgress(uids, read, i, a, j, k, low)
    ensures Ascending(Written(uids, read, i, j, k), low)
    ensures forall x :: a <= x < |uids| ==> (Denoted(Written(uids, read, i, j, k), uids[x]) <==> read[x])
    decreases |uids| - i
  {
    if i == |uids| {
    } else if read[i] {
      WrittenFacts(uids, read, i + 1, a, if j == 0 then uids[i] else j, uids[i], low);
    } else {
      var rest := Written(uids, read, i + 1, 0, if j == 0 then k else uids[i] - 1);
      WrittenFacts(uids, read, i + 1, i + 1, 0, if j == 0 then k else uids[i] - 1, uids[i] + 1);
      forall x | a <= x <= i
        ensures !Denoted(rest, uids[x])
      {
        AscendingBounds(rest, uids[i] + 1, uids[x]);
      }
      AscendingFrom(rest, uids[i] + 1, uids[i]);
      if j == 0 {
        AscendingFrom(rest, uids[i] + 1, low);
      } else {
        var all := [ItemOf(j, uids[i] - 1)] + rest;
        assert all[1..] == rest;
      }
    }
  }

  lemma AscendingFrom(items: seq<Item>, low: nat, low': nat)
    requires low' <= low && Ascending(items, low)
    ensures Ascending(items, low')
  {
  }

  /** Among the messages, the written list holds exactly the read ones, although its ranges also
      swallow the unique identifiers no message has. */
  lemma WrittenDenotes(uids: seq<Uid>, read: seq<bool>)
    requires |read| == |uids| && StrictlyAscending(uids)
    ensures Ascending(WrittenList(uids, read), 0)
    ensures forall x :: 0 <= x < |uids| ==> (Denoted(WrittenList(uids, read), uids[x]) <==> read[x])
  {
    if uids != [] {
      WrittenFacts(uids, read, 0, 0, FirstLow(uids), FirstLow(uids), 0);
    }
  }

  /** Print the separator c and the range from j to k, a single number when they are the same. */
  method PrintRange(f: string, c: char, j: nat, k: nat) returns (f': string)
    ensures f' == f + ([c] + ItemOf(j, k).Text())
  {
    if j == k {
      f' := f + ([c] + Digits(j));
    } else {
      f' := f + ([c] + (Digits(j) + "-" + Digits(k)));
    }
  }

  lemma ListTextSplit(f: string, item: Item, rest: seq<Item>, c: char)
    ensures f + ListText([item] + rest, c) == f + ([c] + item.Text()) + ListText(rest, ',')
  {
    assert ([item] + rest)[1..] == rest;
    Assoc([c], item.Text(), ListText(rest, ','));
    Assoc(f, [c] + item.Text(), ListText(rest, ','));
  }

  /** An unread message ends the range in progress. */
  lemma {:induction false} WrittenSplit(uids: seq<Uid>, read: seq<bool>, i: nat, j: nat, k: nat, f: string, c: char)
    requires i < |uids| == |read| && !read[i] && j != 0
    ensures var u: nat := uids[i];
            var rest := Written(uids, read, i + 1, 0, u - 1);
            f + ListText(Written(uids, read, i, j, k), c)
            == if u > 1 then f + ([c] + ItemOf(j, u - 1).Text()) + ListText(rest, ',') else f + ListText(rest, c)
  {
    var u: nat := uids[i];
    var rest := Written(uids, read, i + 1, 0, u - 1);
    if u > 1 {
      ListTextSplit(f, ItemOf(j, u - 1), rest, c);
    } else {
      assert [] + rest == rest;
    }
  }

  /** The loop body of newsrc_newmessages for message i. */
  method NewMessage(uids: seq<Uid>, read: seq<bool>, i: nat, f: string, c: char, j: nat, k: nat)
    returns (f': string, c': char, j': nat, k': nat)
    requires i < |uids| == |read|
    ensures f' + ListText(Written(uids, read, i + 1, j', k'), c') == f + ListText(Written(uids, read, i, j, k), c)
  {
    hide ListText;
    f', c', j', k' := f, c, j, k;
    if read[i] {
      k' := uids[i];
      if j == 0 {
        j' := k';
      }
    } else if j != 0 {
      WrittenSplit(uids, read, i, j, k, f, c);
      var u: nat := uids[i];
      k' := u - 1;
      if k' != 0 {
        f' := PrintRange(f, c, j, k');
        c' := ',';
      }
      j' := 0;
    }
  }

  /** Behind the last message the range in progress is written. */
  lemma WrittenEnd(uids: seq<Uid>, read: seq<bool>, j: nat, k: nat, f: string, c: char)
    requires |read| == |uids|
    ensures f + ListText(Written(uids, read, |uids|, j, k), c) == if j != 0 then f + ([c] + ItemOf(j, k).Text()) else f
  {
    if j != 0 {
      ListTextSplit(f, ItemOf(j, k), [], c);
      assert [ItemOf(j, k)] + [] == [ItemOf(j, k)];
    }
  }

  /** newsrc_newmessages: what it puts into the file. */
  method NewMessages(uids: seq<Uid>, read: seq<bool>, nl: string) returns (f: string)
    requires |read| == |uids|
    ensures f == ListText(WrittenList(uids, read), ' ') + nl
  {
    hide Written;
    f := "";
    if uids != [] {
      var c := ' ';
      var i: nat, j: nat, k: nat := 0, FirstLow(uids), FirstLow(uids);
      while i < |uids|
        invariant i <= |uids|
        invariant f + ListText(Written(uids, read, i, j, k), c) == ListText(WrittenList(uids, read), ' ')
      {
        f, c, j, k := NewMessage(uids, read, i, f, c, j, k);
        i := i + 1;
      }
      WrittenEnd(uids, read, j, k, f, c);
      if j != 0 {
        f := PrintRange(f, c, j, k);
      }
    }
    f := f + nl;
  }

  // ----- what newsrc_read does -----

  /** What the reader has done so far: m is the next message, unseen the message number of the first
      unseen one (zero for none yet). */
  datatype Marks = Marks(m: nat, deleted: seq<bool>, valid: seq<bool>, unseen: nat)

  ghost predicate MarksFit(uids: seq<Uid>, k: Marks) {
    k.m <= |uids| == |k.deleted| == |k.valid|
  }

  predicate InRange(uid: nat, i: nat, j: nat) {
    if j != 0 then i <= uid <= j else uid == i
  }

  /** The first message from m on not below i. */
  ghost function SkipBelow(uids: seq<Uid>, m: nat, i: nat): (a: nat)
    requires m <= |uids|
    ensures m <= a <= |uids|
    decreases |uids| - m
  {
    if m < |uids| && uids[m] < i then SkipBelow(uids, m + 1, i) else m
  }

  /** The first message from m on not in the range. */
  ghost function SkipRange(uids: seq<Uid>, m: nat, i: nat, j: nat): (b: nat)
    requires m <= |uids|
    ensures m <= b <= |uids|
    decreases |uids| - m
  {
    if m < |uids| && InRange(uids[m], i, j) then SkipRange(uids, m + 1, i, j) else m
  }

  ghost function SetFrom(s: seq<bool>, a: nat, b: nat): (r: seq<bool>)
    requires a <= b <= |s|
    ensures |r| == |s|
  {
    s[..a] + seq(b - a, x => true) + s[b..]
  }

  lemma SetFromAt(s: seq<bool>, a: nat, b: nat)
    requires a <= b <= |s|
    ensures forall x :: 0 <= x < |s| ==> SetFrom(s, a, b)[x] == (s[x] || a <= x < b)
  {
  }

  lemma SetFromNone(s: seq<bool>, a: nat)
    requires a <= |s|
    ensures SetFrom(s, a, a) == s
  {
  }

  lemma SetFromNext(s: seq<bool>, a: nat, b: nat)
    requires a <= b < |s|
    ensures SetFrom(s, a, b)[b := true] == SetFrom(s, a, b + 1)
  {
  }

  /** One element of the list: j is zero when it is no range. */
  ghost function Apply(uids: seq<Uid>, k: Marks, i: nat, j: nat): (k': Marks)
    requires MarksFit(uids, k) && k.m < |uids|
    ensures MarksFit(uids, k') && k.m <= k'.m
  {
    var a := SkipBelow(uids, k.m, i);
    var b := SkipRange(uids, a, i, j);
    Marks(b, SetFrom(k.deleted, a, b), SetFrom(k.valid, k.m, b),
          if k.unseen == 0 && uids[k.m] < i then k.m + 1 else k.unseen)
  }

  /** A number or range as text: its two numbers (zero where there is none) and its length. */
  function SecondNumber(s: string): nat {
    if Run(s) < |s| && s[Run(s)] == '-' then Number(s[Run(s) + 1..]) else 0
  }

  function ItemLength(s: string): (q: nat)
    ensures q <= |s|
  {
    if Run(s) < |s| && s[Run(s)] == '-' then Run(s) + 1 + Run(s[Run(s) + 1..]) else Run(s)
  }

  /** The list read from the text s on: it ends at the first character that is no part of it, or when
      there are no more messages. */
  ghost function ReadList(s: string, uids: seq<Uid>, k: Marks): (k': Marks)
    requires MarksFit(uids, k)
    ensures MarksFit(uids, k')
    decreases |s|
  {
    if k.m == |uids| then k
    else
      var number := s != "" && IsDigit(s[0]);
      var k1 := if number then Apply(uids, k, Number(s), SecondNumber(s)) else k;
      var rest := if number then s[ItemLength(s)..] else s;
      if rest != "" && rest[0] == ',' then ReadList(rest[1..], uids, k1) else k1
  }

  /** ReadList, one element later. */
  lemma {:induction false} ReadListStep(s: string, uids: seq<Uid>, k: Marks)
    requires MarksFit(uids, k) && k.m < |uids| && s != "" && IsDigit(s[0])
    ensures var k1 := Apply(uids, k, Number(s), SecondNumber(s));
            var rest := s[ItemLength(s)..];
            ReadList(s, uids, k) == if rest != "" && rest[0] == ',' then ReadList(rest[1..], uids, k1) else k1
  {
  }

  function Fresh(n: nat): Marks {
    Marks(0, seq(n, x => false), seq(n, x => false), 0)
  }

  lemma {:induction false} SkipBelowIs(uids: seq<Uid>, m: nat, i: nat)
    requires m <= |uids|
    ensures var a := SkipBelow(uids, m, i);
            (forall x :: m <= x < a ==> uids[x] < i) && (a < |uids| ==> i <= uids[a])
    decreases |uids| - m
  {
    if m < |uids| && uids[m] < i {
      SkipBelowIs(uids, m + 1, i);
    }
  }

  lemma {:induction false} SkipRangeIs(uids: seq<Uid>, m: nat, i: nat, j: nat)
    requires m <= |uids|
    ensures var b := SkipRange(uids, m, i, j);
            (forall x :: m <= x < b ==> InRange(uids[x], i, j)) && (b < |uids| ==> !InRange(uids[b], i, j))
    decreases |uids| - m
  {
    if m < |uids| && InRange(uids[m], i, j) {
      SkipRangeIs(uids, m + 1, i, j);
    }
  }

  /** unseen is the number of the first message, of those before m, that is not deleted. */
  ghost predicate FirstUnseen(k: Marks)
    requires k.m <= |k.deleted|
  {
    if k.unseen == 0 then forall x :: 0 <= x < k.m ==> k.deleted[x]
    else
      && k.unseen <= k.m && !k.deleted[k.unseen - 1]
      && forall x :: 0 <= x < k.unseen - 1 ==> k.deleted[x]
  }

  /** Everything before message m is settled, and nothing from it on is touched. */
  ghost predicate SettledBelow(uids: seq<Uid>, k: Marks) {
    && MarksFit(uids, k)
    && (forall x :: 0 <= x < k.m ==> k.valid[x])
    && (forall x :: k.m <= x < |uids| ==> !k.deleted[x])
    && FirstUnseen(k)
  }

  function Second(item: Item): nat {
    if item.Span? then item.high else 0
  }

  /** The last number an element reaches: n-0 is read as n. */
  function Top(item: Item): nat {
    if Second(item) != 0 then item.high else item.lo
  }

  /** No range runs backwards. */
  predicate Forward(items: seq<Item>) {
    forall k :: 0 <= k < |items| ==> items[k].lo <= Top(items[k])
  }

  datatype Verdict = Read | Unread | Above

  /** What the list says about one message: the first element that reaches it decides. */
  function Judge(items: seq<Item>, uid: nat): Verdict {
    if items == [] then Above
    else if uid <= Top(items[0]) then if uid < items[0].lo then Unread else Read
    else Judge(items[1..], uid)
  }

  /** On an ascending list that is membership. */
  lemma {:induction false} JudgeAscending(items: seq<Item>, low: nat, uid: nat)
    requires Ascending(items, low)
    ensures Forward(items)
    ensures low <= uid ==> (Judge(items, uid) == Read <==> Denoted(items, uid))
    ensures low <= uid ==> (Judge(items, uid) == Above <==> End(items, low) <= uid)
  {
    if items != [] {
      AscendingBounds(items[1..], items[0].Hi() + 1, uid);
      JudgeAscending(items[1..], items[0].Hi() + 1, uid);
      assert forall k :: 1 <= k < |items| ==> items[k] == items[1..][k - 1];
    }
  }

  /** The element passes the messages before b, and of those reads the ones from a on. */
  lemma {:induction false} ItemReaches(uids: seq<Uid>, m: nat, item: Item)
    requires StrictlyAscending(uids) && m <= |uids| && item.lo <= Top(item)
    ensures var a := SkipBelow(uids, m, item.lo);
            var b := SkipRange(uids, a, item.lo, Second(item));
            && (forall x :: m <= x < |uids| ==> (uids[x] < item.lo <==> x < a))
            && (forall x :: m <= x < |uids| ==> (uids[x] <= Top(item) <==> x < b))
  {
    var a := SkipBelow(uids, m, item.lo);
    var b := SkipRange(uids, a, item.lo, Second(item));
    SkipBelowIs(uids, m, item.lo);
    SkipRangeIs(uids, a, item.lo, Second(item));
    assert a < |uids| ==> forall x :: a <= x < |uids| ==> uids[a] <= uids[x];
    assert b < |uids| ==> uids[a] <= uids[b] && Top(item) < uids[b];
    assert b < |uids| ==> forall x :: b <= x < |uids| ==> uids[b] <= uids[x];
  }

  lemma {:induction false} ApplyItem(uids: seq<Uid>, k: Marks, item: Item)
    requires StrictlyAscending(uids) && SettledBelow(uids, k) && k.m < |uids| && item.lo <= Top(item)
    ensures var k' := Apply(uids, k, item.lo, Second(item));
            && SettledBelow(uids, k')
            && (forall x :: 0 <= x < k.m ==> k'.deleted[x] == k.deleted[x])
            && (forall x :: k.m <= x < |uids| ==> (k'.deleted[x] <==> item.lo <= uids[x] <= Top(item)))
            && (forall x :: k.m <= x < |uids| ==> (x < k'.m <==> uids[x] <= Top(item)))
  {
    var a := SkipBelow(uids, k.m, item.lo);
    var b := SkipRange(uids, a, item.lo, Second(item));
    ItemReaches(uids, k.m, item);
    SetFromAt(k.deleted, a, b);
    SetFromAt(k.valid, k.m, b);
  }

  /** All the elements of a list. */
  ghost function ApplyAll(uids: seq<Uid>, k: Marks, items: seq<Item>): (k': Marks)
    requires MarksFit(uids, k)
    ensures MarksFit(uids, k') && k.m <= k'.m
    decreases |items|
  {
    if items == [] || k.m == |uids| then k
    else ApplyAll(uids, Apply(uids, k, items[0].lo, Second(items[0])), items[1..])
  }

  lemma {:induction false} ApplyAllFacts(uids: seq<Uid>, k: Marks, items: seq<Item>)
    requires StrictlyAscending(uids) && SettledBelow(uids, k) && Forward(items)
    ensures var k' := ApplyAll(uids, k, items);
            && SettledBelow(uids, k')
            && (forall x :: 0 <= x < k.m ==> k'.deleted[x] == k.deleted[x])
            && (forall x :: k.m <= x < |uids| ==> (k'.deleted[x] <==> Judge(items, uids[x]) == Read))
            && (forall x :: k.m <= x < |uids| ==> (x < k'.m <==> Judge(items, uids[x]) != Above))
    decreases |items|
  {
    if items == [] {
    } else if k.m == |uids| {
    } else {
      ApplyItem(uids, k, items[0]);
      ApplyAllFacts(uids, Apply(uids, k, items[0].lo, Second(items[0])), items[1..]);
    }
  }

  predicate EndsList(tail: string) {
    tail != "" ==> !IsDigit(tail[0]) && tail[0] != '-' && tail[0] != ','
  }

  lemma {:induction false} ReadSingle(n: nat, rest: string)
    requires rest != "" ==> !IsDigit(rest[0]) && rest[0] != '-'
    ensures var s := Digits(n) + rest;
            && s != "" && IsDigit(s[0]) && Number(s) == n && SecondNumber(s) == 0
            && ItemLength(s) == |Digits(n)| && s[ItemLength(s)..] == rest
            && !(Run(s) < |s| && s[Run(s)] == '-')
  {
    hide Number, Run, Digits;
    ReadBack(n, rest);
  }

  lemma {:induction false} ReadSpan(n: nat, high: nat, rest: string)
    requires rest != "" ==> !IsDigit(rest[0])
    ensures var s := Digits(n) + (['-'] + (Digits(high) + rest));
            && s != "" && IsDigit(s[0]) && Number(s) == n && SecondNumber(s) == high
            && ItemLength(s) == |Digits(n)| + 1 + |Digits(high)| && s[ItemLength(s)..] == rest
            && Run(s) < |s| && s[Run(s)] == '-'
  {
    hide Number, Run, Digits;
    var second := Digits(high) + rest;
    ReadBack(n, ['-'] + second);
    ReadBack(high, rest);
    SpanParts(Digits(n), second);
    assert second[|Digits(high)|..] == rest;
  }

  lemma SpanParts(x: string, second: string)
    ensures var s := x + (['-'] + second); |x| < |s| && s[|x|] == '-' && s[|x| + 1..] == second
    ensures forall q :: 0 <= q <= |second| ==> (x + (['-'] + second))[|x| + 1 + q..] == second[q..]
  {
  }

  lemma SpanText(x: string, y: string, rest: string)
    ensures x + "-" + y + rest == x + (['-'] + (y + rest))
  {
  }

  /** A printed element is read back whole. */
  lemma {:induction false} ReadItem(item: Item, rest: string)
    requires rest != "" ==> !IsDigit(rest[0]) && rest[0] != '-'
    ensures var s := item.Text() + rest;
            && s != "" && IsDigit(s[0]) && Number(s) == item.lo && SecondNumber(s) == Second(item)
            && ItemLength(s) == |item.Text()| && s[ItemLength(s)..] == rest
            && (Run(s) < |s| && s[Run(s)] == '-' <==> item.Span?)
  {
    hide Number, Run, Digits, SecondNumber, ItemLength;
    if item.Span? {
      ReadSpan(item.lo, item.high, rest);
      SpanText(Digits(item.lo), Digits(item.high), rest);
    } else {
      ReadSingle(item.lo, rest);
    }
  }

  lemma {:induction false} ReadOne(uids: seq<Uid>, k: Marks, item: Item, rest: string)
    requires MarksFit(uids, k) && k.m < |uids|
    requires rest != "" ==> !IsDigit(rest[0]) && rest[0] != '-'
    ensures var k1 := Apply(uids, k, item.lo, Second(item));
            ReadList(item.Text() + rest, uids, k)
            == if rest != "" && rest[0] == ',' then ReadList(rest[1..], uids, k1) else k1
  {
    ReadItem(item, rest);
    ReadListStep(item.Text() + rest, uids, k);
  }

  lemma {:induction false} ListIsState(items: seq<Item>, c: char)
    requires items != []
    ensures ListText(items, c) == [c] + StateText(items)
  {
  }

  /** What follows the first element. */
  lemma {:induction false} TextAfter(items: seq<Item>, tail: string)
    requires items != [] && EndsList(tail)
    ensures var rest := ListText(items[1..], ',') + tail;
            && StateText(items) + tail == items[0].Text() + rest
            && (rest != "" ==> !IsDigit(rest[0]) && rest[0] != '-')
            && (|items| == 1 ==> rest == tail)
            && (|items| > 1 ==> rest != "" && rest[0] == ',' && rest[1..] == StateText(items[1..]) + tail)
  {
    Assoc(items[0].Text(), ListText(items[1..], ','), tail);
    if |items| > 1 {
      ListIsState(items[1..], ',');
      Assoc([','], StateText(items[1..]), tail);
    } else {
      assert "" + tail == tail;
    }
  }

  lemma {:induction false} ReadListText(uids: seq<Uid>, k: Marks, items: seq<Item>, tail: string)
    requires MarksFit(uids, k) && EndsList(tail)
    ensures ReadList(StateText(items) + tail, uids, k) == ApplyAll(uids, k, items)
    decreases |items|
  {
    if items == [] {
      assert StateText(items) + tail == tail;
    } else if k.m < |uids| {
      var k1 := Apply(uids, k, items[0].lo, Second(items[0]));
      TextAfter(items, tail);
      ReadOne(uids, k, items[0], ListText(items[1..], ',') + tail);
      if |items| == 1 {
        assert ApplyAll(uids, k1, items[1..]) == k1;
      } else {
        ReadListText(uids, k1, items[1..], tail);
      }
    }
  }

  /** Reading a list into a fresh stream deletes exactly the messages it says are read, and leaves over,
      from m on, exactly those above it; unseen is the first message not deleted before them. */
  lemma ReadIsExact(uids: seq<Uid>, items: seq<Item>, tail: string)
    requires StrictlyAscending(uids) && Forward(items) && EndsList(tail)
    ensures var k := ReadList(StateText(items) + tail, uids, Fresh(|uids|));
            && SettledBelow(uids, k)
            && (forall x :: 0 <= x < |uids| ==> (k.deleted[x] <==> Judge(items, uids[x]) == Read))
            && (forall x :: 0 <= x < |uids| ==> (x < k.m <==> Judge(items, uids[x]) != Above))
  {
    ReadListText(uids, Fresh(|uids|), items, tail);
    ApplyAllFacts(uids, Fresh(|uids|), items);
  }

  /** The reader skips the blanks in front of the list. */
  function SkipBlanks(s: string): (r: string) {
    if s != "" && s[0] == ' ' then SkipBlanks(s[1..]) else s
  }

  lemma {:induction false} SkipToList(items: seq<Item>, tail: string)
    requires tail != "" ==> tail[0] != ' '
    ensures SkipBlanks(ListText(items, ' ') + tail) == StateText(items) + tail
  {
    if items == [] {
      assert "" + tail == tail;
    } else {
      ListIsState(items, ' ');
      Assoc([' '], StateText(items), tail);
      assert ([' '] + (StateText(items) + tail))[1..] == StateText(items) + tail;
    }
  }

  /** What was written is read back into a fresh stream: the same messages are deleted. */
  lemma RoundTrip(uids: seq<Uid>, read: seq<bool>, tail: string)
    requires |read| == |uids| && StrictlyAscending(uids) && EndsList(tail) && (tail != "" ==> tail[0] != ' ')
    ensures var text := ListText(WrittenList(uids, read), ' ') + tail;
            ReadList(SkipBlanks(text), uids, Fresh(|uids|)).deleted == read
  {
    var items := WrittenList(uids, read);
    WrittenDenotes(uids, read);
    SkipToList(items, tail);
    JudgeAscending(items, 0, 0);
    ReadIsExact(uids, items, tail);
    forall x | 0 <= x < |uids|
      ensures Judge(items, uids[x]) == Read <==> read[x]
    {
      JudgeAscending(items, 0, uids[x]);
    }
  }

  // ----- newsrc_check_uid -----

  datatype Counts = Counts(recent: nat, unseen: nat)

  /** What newsrc_check_uid adds to the two counts. */
  function CheckUid(state: string, uid: nat): Counts
    decreases |state|
  {
    if state == "" then Counts(1, 1)
    else
      var i := Number(state);
      var range := Run(state) < |state| && state[Run(state)] == '-';
      var j := if range && SecondNumber(state) != 0 then SecondNumber(state) else i;
      var rest := state[ItemLength(state)..];
      if j < i then Counts(0, 0)
      else if rest != "" && rest[0] != ',' then Counts(0, 0)
      else if uid <= j then Counts(0, if uid < i then 1 else 0)
      else if rest == "" then Counts(1, 1)
      else CheckUid(rest[1..], uid)
  }

  function Verdicted(v: Verdict): Counts {
    match v
    case Read => Counts(0, 0)
    case Unread => Counts(0, 1)
    case Above => Counts(1, 1)
  }

  /** CheckUid, one element later. */
  lemma {:induction false} CheckOne(item: Item, rest: string, uid: nat)
    requires rest != "" ==> rest[0] == ','
    ensures CheckUid(item.Text() + rest, uid)
            == if Top(item) < item.lo then Counts(0, 0)
               else if uid <= Top(item) then Counts(0, if uid < item.lo then 1 else 0)
               else if rest == "" then Counts(1, 1)
               else CheckUid(rest[1..], uid)
  {
    ReadItem(item, rest);
  }

  /** A message is counted by what the list says about it. */
  lemma {:induction false} CheckIsExact(items: seq<Item>, uid: nat)
    requires Forward(items)
    ensures CheckUid(StateText(items), uid) == Verdicted(Judge(items, uid))
    decreases |items|
  {
    if items != [] {
      CheckOne(items[0], ListText(items[1..], ','), uid);
      if |items| > 1 {
        ListIsState(items[1..], ',');
        assert ([','] + StateText(items[1..]))[1..] == StateText(items[1..]);
        CheckIsExact(items[1..], uid);
      }
    }
  }

  /** A number above the whole list is counted only when no range in it runs backwards. */
  lemma {:induction false} CheckBackward(items: seq<Item>, uid: nat)
    requires !Forward(items) && forall k :: 0 <= k < |items| ==> items[k].lo < uid && Top(items[k]) < uid
    ensures CheckUid(StateText(items), uid) == Counts(0, 0)
    decreases |items|
  {
    hide CheckUid;
    CheckOne(items[0], ListText(items[1..], ','), uid);
    if items[0].lo <= Top(items[0]) {
      assert !Forward(items[1..]) by {
        var k :| 0 <= k < |items| && items[k].lo > Top(items[k]);
        assert items[1..][k - 1] == items[k];
      }
      ListIsState(items[1..], ',');
      assert ([','] + StateText(items[1..]))[1..] == StateText(items[1..]);
      CheckBackward(items[1..], uid);
    }
  }

  /** newsrc_check_uid summed over a stream. */
  function CheckAll(state: string, uids: seq<Uid>): Counts {
    if uids == [] then Counts(0, 0)
    else
      var all := CheckAll(state, uids[..|uids| - 1]);
      var one := CheckUid(state, uids[|uids| - 1]);
      Counts(all.recent + one.recent, all.unseen + one.unseen)
  }

  /** How many messages are not deleted. */
  function Undeleted(deleted: seq<bool>): nat {
    if deleted == [] then 0
    else Undeleted(deleted[..|deleted| - 1]) + if deleted[|deleted| - 1] then 0 else 1
  }

  lemma {:induction false} CheckCounts(items: seq<Item>, uids: seq<Uid>, m: nat, deleted: seq<bool>)
    requires Forward(items) && |deleted| == |uids|
    requires forall x :: 0 <= x < |uids| ==> (x < m <==> Judge(items, uids[x]) != Above)
    requires forall x :: 0 <= x < |uids| ==> (deleted[x] <==> Judge(items, uids[x]) == Read)
    ensures CheckAll(StateText(items), uids)
            == Counts(if m < |uids| then |uids| - m else 0, Undeleted(deleted))
    decreases |uids|
  {
    if uids != [] {
      var n := |uids| - 1;
      CheckCounts(items, uids[..n], m, deleted[..n]);
      CheckIsExact(items, uids[n]);
    }
  }

  /** Over the messages of the stream the checker counts as recent those the reader finds above the
      list, and as unseen those the reader leaves undeleted. */
  ghost predicate Agree(items: seq<Item>, uids: seq<Uid>, tail: string) {
    var k := ReadList(StateText(items) + tail, uids, Fresh(|uids|));
    CheckAll(StateText(items), uids) == Counts(|uids| - k.m, Undeleted(k.deleted))
  }

  /** The checker agrees with the reader on every list that has no backward range, ascending or not. */
  lemma CheckAgreesWithRead(items: seq<Item>, uids: seq<Uid>, tail: string)
    requires StrictlyAscending(uids) && Forward(items) && EndsList(tail)
    ensures Agree(items, uids, tail)
  {
    ReadIsExact(uids, items, tail);
    var k := ReadList(StateText(items) + tail, uids, Fresh(|uids|));
    CheckCounts(items, uids, k.m, k.deleted);
  }

  /** A number above every number in the list. */
  function Beyond(items: seq<Item>): (n: Uid)
    ensures forall k :: 0 <= k < |items| ==> items[k].lo < n && Top(items[k]) < n
  {
    if items == [] then 1
    else
      var n := Beyond(items[1..]);
      assert forall k :: 1 <= k < |items| ==> items[k] == items[1..][k - 1];
      var t: nat := if items[0].lo < Top(items[0]) then Top(items[0]) else items[0].lo;
      if n <= t then t + 1 else n
  }

  /** A message above the list is never reached by the reader's ranges. */
  lemma {:induction false} ReadBeyond(items: seq<Item>, uid: Uid, k: Marks)
    requires forall n :: 0 <= n < |items| ==> Top(items[n]) < uid && items[n].lo < uid
    requires k == Marks(0, [false], [false], 0)
    ensures ApplyAll([uid], k, items) == k
    decreases |items|
  {
    if items != [] {
      var k1 := Apply([uid], k, items[0].lo, Second(items[0]));
      assert k1.deleted == k.deleted && k1.valid == k.valid;
      ReadBeyond(items[1..], uid, k);
    }
  }

  /** And only on those: a backward range makes the checker give up on every number above it, which the
      reader takes as a recent message. */
  lemma CheckAgreesExactly(items: seq<Item>, tail: string)
    requires EndsList(tail)
    ensures Forward(items) <==> forall uids: seq<Uid> :: StrictlyAscending(uids) ==> Agree(items, uids, tail)
  {
    if Forward(items) {
      forall uids: seq<Uid> | StrictlyAscending(uids)
        ensures Agree(items, uids, tail)
      {
        CheckAgreesWithRead(items, uids, tail);
      }
    } else {
      DisagreeBeyond(items, tail);
      assert StrictlyAscending([Beyond(items)]);
    }
  }

  lemma {:induction false} DisagreeBeyond(items: seq<Item>, tail: string)
    requires EndsList(tail) && !Forward(items)
    ensures !Agree(items, [Beyond(items)], tail)
  {
    hide CheckUid, Beyond, ReadList, ApplyAll, StateText;
    var uids: seq<Uid> := [Beyond(items)];
    CheckBackward(items, uids[0]);
    assert uids[..0] == [];
    assert CheckAll(StateText(items), uids[..0]) == Counts(0, 0);
    assert Fresh(1) == Marks(0, [false], [false], 0);
    ReadListText(uids, Fresh(1), items, tail);
    ReadBeyond(items, uids[0], Fresh(1));
  }

  // ----- the routines that read -----

  /** The two numbers of an element, from position p of s on. */
  method ReadNumbers(s: string, p: nat) returns (i: nat, j: nat, q: nat)
    requires p <= |s|
    ensures i == Number(s[p..]) && j == SecondNumber(s[p..]) && q == p + ItemLength(s[p..]) <= |s|
  {
    i, q := ReadNumber(s, p);
    j := 0;
    if q < |s| && s[q] == '-' {
      assert s[p..][Run(s[p..]) + 1..] == s[q + 1..];
      j, q := ReadNumber(s, q + 1);
    }
  }

  /** The messages of a stream as the reader marks them. */
  class NewsStream {
    const uids: seq<Uid>
    var deleted: seq<bool>
    var valid: seq<bool>
    var recent: seq<bool>

    ghost predicate Fit()
      reads this
    {
      |deleted| == |valid| == |recent| == |uids|
    }

    /** A stream whose messages carry no marks. */
    constructor (uids: seq<Uid>)
      ensures this.uids == uids && Fit()
      ensures deleted == Fresh(|uids|).deleted && valid == Fresh(|uids|).valid
      ensures forall x :: 0 <= x < |uids| ==> !recent[x]
    {
      this.uids := uids;
      deleted, valid, recent := seq(|uids|, x => false), seq(|uids|, x => false), seq(|uids|, x => false);
    }

    /** Messages before the first value of an element. */
    method SkipBefore(m: nat, i: nat) returns (a: nat)
      requires Fit() && m <= |uids|
      modifies this`valid
      ensures Fit() && a == SkipBelow(uids, m, i) && valid == SetFrom(old(valid), m, a)
    {
      a := m;
      while a < |uids| && uids[a] < i
        invariant m <= a <= |uids| && Fit()
        invariant SkipBelow(uids, a, i) == SkipBelow(uids, m, i)
        invariant valid == SetFrom(old(valid), m, a)
      {
        valid := valid[a := true];
        a := a + 1;
      }
    }

    /** Messages in the range of an element. */
    method DeleteRange(m: nat, i: nat, j: nat) returns (b: nat)
      requires Fit() && m <= |uids|
      modifies this`valid, this`deleted
      ensures Fit() && b == SkipRange(uids, m, i, j)
      ensures valid == SetFrom(old(valid), m, b) && deleted == SetFrom(old(deleted), m, b)
    {
      hide SetFrom;
      b := m;
      SetFromNone(valid, m);
      SetFromNone(deleted, m);
      while b < |uids| && if j != 0 then uids[b] >= i && uids[b] <= j else uids[b] == i
        invariant m <= b <= |uids| && Fit()
        invariant SkipRange(uids, b, i, j) == SkipRange(uids, m, i, j)
        invariant valid == SetFrom(old(valid), m, b) && deleted == SetFrom(old(deleted), m, b)
      {
        SetFromNext(old(valid), m, b);
        SetFromNext(old(deleted), m, b);
        valid, deleted := valid[b := true], deleted[b := true];
        b := b + 1;
      }
    }

    /** One element of the list. */
    method ReadElement(m: nat, unseen: nat, i: nat, j: nat) returns (m': nat, unseen': nat)
      requires Fit() && m < |uids|
      modifies this`valid, this`deleted
      ensures Fit() && m' <= |uids|
      ensures Marks(m', deleted, valid, unseen') == Apply(uids, old(Marks(m, deleted, valid, unseen)), i, j)
    {
      unseen' := if unseen == 0 && uids[m] < i then m + 1 else unseen;
      var a := SkipBefore(m, i);
      m' := DeleteRange(a, i, j);
      assert SetFrom(SetFrom(old(valid), m, a), a, m') == SetFrom(old(valid), m, m');
    }

    /** One round of the element loop: the number or range rest starts with, and the delimiter. */
    method ReadRound(rest: string, m: nat, unseen: nat) returns (m': nat, unseen': nat, next: string, more: bool)
      requires Fit() && m < |uids|
      modifies this`valid, this`deleted
      ensures Fit() && m' <= |uids| && |next| <= |rest| && (more ==> |next| < |rest|)
      ensures old(ReadList(rest, uids, Marks(m, deleted, valid, unseen)))
              == if more then ReadList(next, uids, Marks(m', deleted, valid, unseen'))
                 else Marks(m', deleted, valid, unseen')
    {
      hide Apply, Run, Number, SecondNumber, ItemLength;
      m', unseen', next := m, unseen, rest;
      if rest != "" && IsDigit(rest[0]) {
        assert rest[0..] == rest;
        var i, j, q := ReadNumbers(rest, 0);
        m', unseen' := ReadElement(m, unseen, i, j);
        next := rest[q..];
      }
      more := next != "" && next[0] == ',';
      if more {
        next := next[1..];
      }
    }

    /** The element loop of newsrc_read over the text s. */
    method ReadElements(s: string) returns (m: nat, unseen: nat)
      requires Fit()
      modifies this`valid, this`deleted
      ensures Fit() && m <= |uids|
      ensures Marks(m, deleted, valid, unseen) == ReadList(s, uids, old(Marks(0, deleted, valid, 0)))
    {
      m, unseen := 0, 0;
      var rest, more := s, true;
      ghost var was := ReadList(s, uids, Marks(0, deleted, valid, 0));
      while more && m < |uids|
        invariant Fit() && m <= |uids|
        invariant (if more then ReadList(rest, uids, Marks(m, deleted, valid, unseen))
                   else Marks(m, deleted, valid, unseen)) == was
        decreases |rest|, more
      {
        m, unseen, rest, more := ReadRound(rest, m, unseen);
      }
    }

    /** The messages from m on are recent. */
    method MarkRecent(m: nat) returns (recents: nat)
      requires Fit() && m <= |uids|
      modifies this`valid, this`recent
      ensures Fit() && recents == |uids| - m
      ensures valid == SetFrom(old(valid), m, |uids|) && recent == SetFrom(old(recent), m, |uids|)
    {
      recents := 0;
      var x := m;
      while x < |uids|
        invariant m <= x <= |uids| && Fit() && recents == x - m
        invariant valid == SetFrom(old(valid), m, x) && recent == SetFrom(old(recent), m, x)
      {
        valid, recent := valid[x := true], recent[x := true];
        recents := recents + 1;
        x := x + 1;
      }
    }

    static method SkipLeading(text: string) returns (p: nat)
      ensures p <= |text| && text[p..] == SkipBlanks(text)
    {
      p := 0;
      assert text[0..] == text;
      while p < |text| && text[p] == ' '
        invariant p <= |text| && SkipBlanks(text[p..]) == SkipBlanks(text)
      {
        assert text[p..][1..] == text[p + 1..];
        p := p + 1;
      }
    }

    /** newsrc_read of the text after the name of the group: the number of recent messages, and the
        message it reports as the first unseen one (zero for none). */
    method NewsRead(text: string) returns (recents: nat, unseen: nat)
      requires Fit()
      modifies this
      ensures Fit()
      ensures var k := ReadList(SkipBlanks(text), uids, old(Marks(0, deleted, valid, 0)));
              && deleted == k.deleted && valid == SetFrom(k.valid, k.m, |uids|)
              && recent == SetFrom(old(recent), k.m, |uids|) && recents == |uids| - k.m
              && unseen == Reported(k)
    {
      var p := SkipLeading(text);
      var m;
      m, unseen := ReadElements(text[p..]);
      if m < |uids| && unseen == 0 {
        unseen := m + 1;
      }
      recents := MarkRecent(m);
    }
  }

  /** The message newsrc_read reports. */
  ghost function Reported(k: Marks): nat {
    if k.unseen == 0 && k.m < |k.deleted| then k.m + 1 else k.unseen
  }

  /** It is the first one not deleted, and none is reported only when all are deleted. */
  lemma {:induction false} ReportedIsFirst(uids: seq<Uid>, items: seq<Item>, tail: string)
    requires StrictlyAscending(uids) && Forward(items) && EndsList(tail)
    ensures var k := ReadList(StateText(items) + tail, uids, Fresh(|uids|));
            var u := Reported(k);
            && u <= |uids|
            && (u == 0 <==> forall x :: 0 <= x < |uids| ==> k.deleted[x])
            && (u > 0 ==> !k.deleted[u - 1] && forall x :: 0 <= x < u - 1 ==> k.deleted[x])
  {
    hide ReadList, StateText, StrictlyAscending, Forward, EndsList, Judge;
    ReadIsExact(uids, items, tail);
    var k := ReadList(StateText(items) + tail, uids, Fresh(|uids|));
    if k.unseen == 0 && k.m < |uids| {
      assert !k.deleted[k.m];
    }
  }

  lemma NoSecond(s: string)
    ensures !(Run(s) < |s| && s[Run(s)] == '-') ==> SecondNumber(s) == 0
  {
  }

  /** One round of newsrc_check_uid: the end of its element, and whether it is decided, with what. */
  method CheckElement(state: string, p: nat, uid: nat) returns (q: nat, decided: bool, c: Counts)
    requires p < |state|
    ensures p < q <= |state| || decided
    ensures if decided then CheckUid(state[p..], uid) == c
            else q <= |state| && CheckUid(state[p..], uid) == CheckUid(state[q..], uid)
  {
    hide Run, Number, SecondNumber, ItemLength;
    ghost var rest := state[p..];
    NoSecond(rest);
    var i, j;
    i, j, q := ReadNumbers(state, p);
    if j == 0 {
      j := i;           // a single message, or -0
    }
    if j < i {
      return q, true, Counts(0, 0);
    }
    assert rest[ItemLength(rest)..] == state[q..];
    if q < |state| && state[q] == ',' {
      assert state[q..][1..] == state[q + 1..];
      q := q + 1;
    } else if q < |state| {
      return q, true, Counts(0, 0);
    }
    decided, c := uid <= j, Counts(0, if uid < i then 1 else 0);
  }

  /** newsrc_check_uid. */
  method NewsCheckUid(state: string, uid: nat, recent: nat, unseen: nat) returns (recent': nat, unseen': nat)
    ensures var c := CheckUid(state, uid);
            recent' == recent + c.recent && unseen' == unseen + c.unseen
  {
    var p: nat := 0;
    assert state[0..] == state;
    while p < |state|
      invariant p <= |state| && CheckUid(state[p..], uid) == CheckUid(state, uid)
      decreases |state| - p
    {
      var q, decided, c := CheckElement(state, p, uid);
      if decided {
        return recent + c.recent, unseen + c.unseen;
      }
      p := q;
    }
    return recent + 1, unseen + 1;
  }
}
