/** Exactly which numbers the list newsrc_newmessages writes holds, messages or not, and that it could not be
    shorter. */
module NewsrcList {
  import opened Newsrc

  /** The last message, from i on, whose unique identifier is not above x. */
  function LastUpTo(uids: seq<Uid>, i: nat, x: nat): (m: nat)
    requires i < |uids| && uids[i] <= x
    ensures i <= m < |uids| && uids[m] <= x
    decreases |uids| - i
  {
    if i + 1 < |uids| && uids[i + 1] <= x then LastUpTo(uids, i + 1, x) else i
  }

  /** What the elements still to be written hold: up to the next message the range in progress, from there on what the
      message before says. */
  lemma {:induction false} WrittenHolds(uids: seq<Uid>, read: seq<bool>, i: nat, j: nat, k: nat, x: nat)
    requires |read| == |uids| && StrictlyAscending(uids) && i <= |uids|
    requires j != 0 ==> j <= k && (i < |uids| ==> k < uids[i])
    ensures Denoted(Written(uids, read, i, j, k), x)
            <==> if i == |uids| then j != 0 && j <= x <= k
                 else if x < uids[i] then j != 0 && j <= x
                 else x <= uids[|uids| - 1] && read[LastUpTo(uids, i, x)]
    decreases |uids| - i
  {
    if i < |uids| {
      if read[i] {
        WrittenHolds(uids, read, i + 1, if j == 0 then uids[i] else j, uids[i], x);
      } else {
        var rest := Written(uids, read, i + 1, 0, if j == 0 then k else uids[i] - 1);
        WrittenHolds(uids, read, i + 1, 0, if j == 0 then k else uids[i] - 1, x);
        if j != 0 {
          assert ([ItemOf(j, uids[i] - 1)] + rest)[1..] == rest;
        }
      }
    }
  }

  /** A number is on the list if and only if it is at least 1, not above the last message, and below the first message
      or not below a read one that no other message follows up to it. */
  lemma {:induction false} WrittenExactly(uids: seq<Uid>, read: seq<bool>, x: nat)
    requires |read| == |uids| && StrictlyAscending(uids) && uids != []
    ensures Denoted(WrittenList(uids, read), x)
            <==> 1 <= x <= uids[|uids| - 1] && (uids[0] <= x ==> read[LastUpTo(uids, 0, x)])
  {
    WrittenHolds(uids, read, 0, FirstLow(uids), FirstLow(uids), x);
  }

  /** Each range has at least two numbers and ends at least two before the next one begins. */
  ghost predicate Spaced(items: seq<Item>) {
    items != [] ==>
      && (items[0].Span? ==> items[0].lo < items[0].high)
      && (|items| > 1 ==> items[0].Hi() + 1 < items[1].lo)
      && Spaced(items[1..])
  }

  lemma {:induction false} WrittenSpaced(uids: seq<Uid>, read: seq<bool>, i: nat, j: nat, k: nat)
    requires |read| == |uids| && StrictlyAscending(uids) && i <= |uids|
    requires j != 0 ==> j <= k && (i < |uids| ==> k < uids[i])
    ensures Spaced(Written(uids, read, i, j, k))
    decreases |uids| - i
  {
    if i < |uids| {
      if read[i] {
        WrittenSpaced(uids, read, i + 1, if j == 0 then uids[i] else j, uids[i]);
      } else {
        var top := if j == 0 then k else uids[i] - 1;
        var rest := Written(uids, read, i + 1, 0, top);
        WrittenSpaced(uids, read, i + 1, 0, top);
        WrittenFacts(uids, read, i + 1, i + 1, 0, top, uids[i] + 1);
        if j != 0 {
          assert ([ItemOf(j, uids[i] - 1)] + rest)[1..] == rest;
        }
      }
    }
  }

  /** So no two ranges of the list could be one. */
  lemma {:induction false} ListIsShort(uids: seq<Uid>, read: seq<bool>)
    requires |read| == |uids| && StrictlyAscending(uids)
    ensures Spaced(WrittenList(uids, read))
  {
    if uids != [] {
      WrittenSpaced(uids, read, 0, FirstLow(uids), FirstLow(uids));
    }
  }
}
