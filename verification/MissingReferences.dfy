/** Step 1 of REFERENCES threading seen from the messages: where every recorded mother comes from, and that a message
    stays connected through references to messages nobody has. */
module MissingReferences {
  import opened Forests
  import opened Linking
  import opened Messages
  import opened ReferenceChains
  import opened ReferenceLinks
  import opened ThreadForest

  // ----- names -----

  lemma {:induction false} FollowedNames(l: Links, refs: seq<string>, s: string)
    ensures s in Followed(l, refs).names <==> s in l.names || s in refs
    decreases |refs|
  {
    if refs != [] {
      var rest := refs[..|refs| - 1];
      FollowedNames(l, rest, s);
      assert refs == rest + [refs[|refs| - 1]];
    }
  }

  lemma {:induction false} RegisteredNames(unique: seq<string>, s: string)
    ensures s in Registered(unique).names <==> s in unique
    decreases |unique|
  {
    if unique != [] {
      var rest := unique[..|unique| - 1];
      RegisteredNames(rest, s);
      assert unique == rest + [unique[|unique| - 1]];
    }
  }

  /** A name has a container exactly when it is a message's or an earlier reference. */
  lemma {:induction false} NamesAre(msgs: seq<Message>, n: nat, s: string)
    requires n <= |msgs|
    ensures s in ThreadedUpTo(msgs, n).names
            <==> s in UniqueNames(msgs) || exists i :: 0 <= i < n && s in msgs[i].references
    decreases n
  {
    hide Followed, UniqueNames, Registered, Placed;
    if n == 0 {
      RegisteredNames(UniqueNames(msgs), s);
    } else {
      NamesAre(msgs, n - 1, s);
      FollowedNames(ThreadedUpTo(msgs, n - 1), msgs[n - 1].references, s);
      assert (exists i :: 0 <= i < n && s in msgs[i].references)
             <==> (exists i :: 0 <= i < n - 1 && s in msgs[i].references) || s in msgs[n - 1].references;
    }
  }

  lemma {:induction false} FollowedSize(l: Links, refs: seq<string>)
    ensures l.size <= Followed(l, refs).size
    decreases |refs|
  {
    if refs != [] {
      FollowedSize(l, refs[..|refs| - 1]);
    }
  }

  /** Every container has a place in the vector of mothers, and so has every mother. */
  ghost predicate InRange(parent: seq<int>) {
    forall x :: 0 <= x < |parent| ==> parent[x] == NIL || 0 <= parent[x] < |parent|
  }

  lemma {:induction false} PairsInRange(parent: seq<int>, cs: seq<int>)
    requires InRange(parent) && forall k :: 0 <= k < |cs| ==> 0 <= cs[k] < |parent|
    ensures InRange(PairsLinked(parent, cs))
    decreases |cs|
  {
    if |cs| >= 2 {
      PairsInRange(parent, cs[..|cs| - 1]);
    }
  }

  lemma {:induction false} MessageInRange(parent: seq<int>, size: nat, names: map<string, int>, refs: seq<string>,
                                          own: int)
    requires 0 <= own < |parent| <= size && InRange(parent) && forall s :: s in refs ==> s in names
    requires forall k :: 0 <= k < |refs| ==> 0 <= ContainersOf(names, refs)[k] < size
    ensures InRange(MessageLinked(parent, size, names, refs, own))
  {
    PairsInRange(Grown(parent, size), ContainersOf(names, refs));
    if refs != [] {
      assert ContainersOf(names, refs)[|refs| - 1] == names[refs[|refs| - 1]];
    }
  }

  /** What one message adds. */
  lemma NextMessage(msgs: seq<Message>, n: nat)
    requires n < |msgs|
    ensures var (l, l', refs) := (ThreadedUpTo(msgs, n), ThreadedUpTo(msgs, n + 1), msgs[n].references);
            && l'.names == Followed(l, refs).names && l'.size == Followed(l, refs).size
            && (forall s :: s in refs ==> s in l'.names)
            && |MothersUpTo(msgs, n)| >= |msgs|
            && MothersUpTo(msgs, n + 1) == MessageLinked(MothersUpTo(msgs, n), l'.size, l'.names, refs, n)
  {
    hide Followed, MessageLinked;
  }

  lemma {:induction false} MothersInRange(msgs: seq<Message>, n: nat)
    requires FallbacksFresh(msgs) && n <= |msgs|
    ensures |MothersUpTo(msgs, n)| == ThreadedUpTo(msgs, n).size && InRange(MothersUpTo(msgs, n))
    decreases n
  {
    hide MessageLinked, Followed, Registered, UniqueNames, Indexes, ThreadedUpTo, MothersUpTo, InRange;
    if n == 0 {
      MothersAtFirst(msgs);
    } else {
      var (l, l', refs) := (ThreadedUpTo(msgs, n - 1), ThreadedUpTo(msgs, n), msgs[n - 1].references);
      MothersInRange(msgs, n - 1);
      NextMessage(msgs, n - 1);
      NamesKept(msgs, n);
      FollowedSize(l, refs);
      IndexesRange(l'.names, l'.size, refs);
      MessageInRange(MothersUpTo(msgs, n - 1), l'.size, l'.names, refs, n - 1);
    }
  }

  lemma MothersAtFirst(msgs: seq<Message>)
    requires FallbacksFresh(msgs)
    ensures |MothersUpTo(msgs, 0)| == ThreadedUpTo(msgs, 0).size && InRange(MothersUpTo(msgs, 0))
  {
    hide OwnNames, Files, UniqueNames, Registered, Indexes;
    RegisteredFiles(msgs, |msgs|);
    assert msgs[..|msgs|] == msgs;
  }

  // ----- where the mothers come from -----

  /** In the references of message i the container m is named right before x. */
  ghost predicate PairOf(msgs: seq<Message>, names: map<string, int>, i: nat, k: nat, m: int, x: int) {
    && i < |msgs| && k + 1 < |msgs[i].references|
    && msgs[i].references[k] in names && names[msgs[i].references[k]] == m
    && msgs[i].references[k + 1] in names && names[msgs[i].references[k + 1]] == x
  }

  /** The last reference of message i is the container m. */
  ghost predicate LastOf(msgs: seq<Message>, names: map<string, int>, i: nat, m: int)
    requires i < |msgs|
  {
    var refs := msgs[i].references;
    refs != [] && refs[|refs| - 1] in names && names[refs[|refs| - 1]] == m
  }

  ghost predicate HasSource(msgs: seq<Message>, n: nat, names: map<string, int>, m: int, x: int)
    requires n <= |msgs|
  {
    || (0 <= x < n && LastOf(msgs, names, x, m))
    || exists i: nat, k: nat :: i < n && (x < |msgs| ==> x != i) && PairOf(msgs, names, i, k, m, x)
  }

  lemma {:induction false} SourceKept(msgs: seq<Message>, n: nat, names: map<string, int>, names': map<string, int>,
                                      m: int, x: int)
    requires n < |msgs| && Extends(names, names') && HasSource(msgs, n, names, m, x)
    ensures HasSource(msgs, n + 1, names', m, x)
  {
    if 0 <= x < n && LastOf(msgs, names, x, m) {
      assert LastOf(msgs, names', x, m);
    } else {
      var i: nat, k: nat :| i < n && (x < |msgs| ==> x != i) && PairOf(msgs, names, i, k, m, x);
      assert PairOf(msgs, names', i, k, m, x);
    }
  }

  /** One message more: what changes comes from its references. */
  lemma {:induction false} MessageSources(msgs: seq<Message>, n: nat, parent: seq<int>, l: Links, x: int)
    requires n < |msgs| <= |parent| <= l.size && (forall s :: s in msgs[n].references ==> s in l.names)
    requires var now := MessageLinked(parent, l.size, l.names, msgs[n].references, n);
             0 <= x < |now| && now[x] != NIL
    ensures var now := MessageLinked(parent, l.size, l.names, msgs[n].references, n);
            HasSource(msgs, n + 1, l.names, now[x], x) || (x < |parent| && now[x] == parent[x])
  {
    hide PairsLinked, Grown;
    var (was, cs) := (Grown(parent, l.size), ContainersOf(l.names, msgs[n].references));
    var mid := PairsLinked(was, cs);
    if x == n {
      assert LastOf(msgs, l.names, x, OwnLinked(mid, l.names[msgs[n].references[|msgs[n].references| - 1]], n)[x]);
    } else if mid[x] != was[x] {
      var k := OnlyPairsLink(was, cs, x);
      assert PairOf(msgs, l.names, n, k, mid[x], x);
    }
    GrownAt(parent, l.size, x);
  }

  lemma GrownAt(parent: seq<int>, size: nat, x: int)
    requires 0 <= x < |Grown(parent, size)|
    ensures Grown(parent, size)[x] == if x < |parent| then parent[x] else NIL
  {
  }

  lemma NoMothersYet(msgs: seq<Message>)
    ensures forall x :: 0 <= x < |MothersUpTo(msgs, 0)| ==> MothersUpTo(msgs, 0)[x] == NIL
  {
  }

  /** Every recorded mother of x is the last reference of message x, given in its own step, or some other message names
      her right before x. */
  lemma {:induction false} MothersHaveSources(msgs: seq<Message>, n: nat, x: int)
    requires FallbacksFresh(msgs) && n <= |msgs| && 0 <= x < |MothersUpTo(msgs, n)| && MothersUpTo(msgs, n)[x] != NIL
    ensures HasSource(msgs, n, ThreadedUpTo(msgs, n).names, MothersUpTo(msgs, n)[x], x)
    decreases n
  {
    hide MessageLinked, Followed, HasSource, ThreadedUpTo, MothersUpTo, Extends;
    MothersInRange(msgs, n);
    if n == 0 {
      NoMothersYet(msgs);
    } else {
      var (l, l', parent) := (ThreadedUpTo(msgs, n - 1), ThreadedUpTo(msgs, n), MothersUpTo(msgs, n - 1));
      MothersInRange(msgs, n - 1);
      NextMessage(msgs, n - 1);
      FollowedSize(l, msgs[n - 1].references);
      MessageSources(msgs, n - 1, parent, l', x);
      FollowedExtends(l, msgs[n - 1].references);
      if !HasSource(msgs, n, l'.names, MothersUpTo(msgs, n)[x], x) {
        MothersHaveSources(msgs, n - 1, x);
        SourceKept(msgs, n - 1, l.names, l'.names, parent[x], x);
      }
    }
  }

  // ----- references to messages nobody has -----

  /** From reference j + 1 on, the references of message i are names of no message and not seen before. */
  ghost predicate Unseen(msgs: seq<Message>, i: nat, j: nat)
    requires i < |msgs|
  {
    var refs := msgs[i].references;
    && j < |refs|
    && forall t :: j < t < |refs| ==>
         && refs[t] !in UniqueNames(msgs) && refs[t] !in refs[..t]
         && forall e :: 0 <= e < i ==> refs[t] !in msgs[e].references
  }

  /** The mothers once the references of message i have been followed, before it gets its own. */
  ghost function Midway(msgs: seq<Message>, i: nat): seq<int>
    requires i < |msgs|
  {
    var l := ThreadedUpTo(msgs, i + 1);
    PairsLinked(Grown(MothersUpTo(msgs, i), l.size), ContainersOf(l.names, msgs[i].references))
  }

  lemma {:induction false} Untouched(parent: seq<int>, cs: seq<int>, x: int)
    requires 0 <= x < |parent| && x !in cs
    ensures PairsLinked(parent, cs)[x] == parent[x]
  {
    if PairsLinked(parent, cs)[x] != parent[x] {
      var k := OnlyPairsLink(parent, cs, x);
    }
  }

  /** A container that occurs first as reference t gets the one before it for its mother. */
  lemma {:induction false} NewPairLinks(parent: seq<int>, cs: seq<int>, t: nat)
    requires 1 <= t < |cs| && forall k :: 0 <= k < |cs| ==> 0 <= cs[k] < |parent|
    requires cs[t] !in parent && parent[cs[t]] == NIL && cs[t] !in cs[..t]
    ensures PairsLinked(parent, cs)[cs[t]] == cs[t - 1]
  {
    var before := PairsLinked(parent, cs[..t]);
    Untouched(parent, cs[..t], cs[t]);
    StaysChildless(parent, cs[..t], cs[t]);
    assert cs[t - 1] in cs[..t];
    NobodyClimbs(before, cs[t - 1], cs[t]);
    FreePairLinks(parent, cs, t - 1);
  }

  lemma {:induction false} NewIsBeyond(l: Links, names: map<string, int>, size: nat, s: string)
    requires Indexes(l.names, l.size) && Indexes(names, size) && Extends(l.names, names) && s in names && s !in l.names
    ensures l.size <= names[s] < size
  {
    forall c | c in l.names.Values
      ensures c != names[s]
    {
      var u :| u in l.names && l.names[u] == c;
    }
    assert names[s] !in l.names.Values;
  }

  lemma {:induction false} NewIsAlone(parent: seq<int>, size: nat, x: int)
    requires InRange(parent) && |parent| <= x < size
    ensures x !in Grown(parent, size) && Grown(parent, size)[x] == NIL
  {
    var p := Grown(parent, size);
    forall y | 0 <= y < |p|
      ensures p[y] != x
    {
      GrownAt(parent, size, y);
    }
  }

  /** Unseen references have new containers. */
  lemma {:induction false} UnseenIsNew(msgs: seq<Message>, i: nat, j: nat, t: nat)
    requires FallbacksFresh(msgs) && i < |msgs| && Unseen(msgs, i, j) && j < t < |msgs[i].references|
    ensures var (l, l') := (ThreadedUpTo(msgs, i), ThreadedUpTo(msgs, i + 1));
            var cs := ContainersOf(l'.names, msgs[i].references);
            && l.size <= cs[t] < l'.size && cs[t] !in cs[..t]
  {
    hide Followed, UniqueNames, ThreadedUpTo, MothersUpTo, MessageLinked;
    NextMessage(msgs, i);
    var (refs, l, l') := (msgs[i].references, ThreadedUpTo(msgs, i), ThreadedUpTo(msgs, i + 1));
    var cs := ContainersOf(l'.names, refs);
    NamesAre(msgs, i, refs[t]);
    NamesKept(msgs, i);
    NamesKept(msgs, i + 1);
    FollowedExtends(l, refs);
    FollowedNames(l, refs, refs[t]);
    NewIsBeyond(l, l'.names, l'.size, refs[t]);
    forall k | 0 <= k < t
      ensures cs[k] != cs[t]
    {
      assert refs[k] in refs[..t];
    }
  }

  /** Midway, each unseen reference has the one before it for its mother. */
  lemma {:induction false} UnseenLinked(msgs: seq<Message>, i: nat, j: nat, t: nat)
    requires FallbacksFresh(msgs) && i < |msgs| && Unseen(msgs, i, j) && j < t < |msgs[i].references|
    ensures var cs := ContainersOf(ThreadedUpTo(msgs, i + 1).names, msgs[i].references);
            |msgs| <= cs[t] < |Midway(msgs, i)| && Midway(msgs, i)[cs[t]] == cs[t - 1]
  {
    hide ThreadedUpTo, MothersUpTo, UniqueNames, Grown, PairsLinked, Unseen, Indexes, InRange, MessageLinked, Followed;
    NextMessage(msgs, i);
    var (parent, l') := (MothersUpTo(msgs, i), ThreadedUpTo(msgs, i + 1));
    var (was, cs) := (Grown(parent, l'.size), ContainersOf(l'.names, msgs[i].references));
    MothersInRange(msgs, i);
    NamesKept(msgs, i + 1);
    UnseenIsNew(msgs, i, j, t);
    NewIsAlone(parent, l'.size, cs[t]);
    IndexesRange(l'.names, l'.size, msgs[i].references);
    NewPairLinks(was, cs, t);
  }

  /** Climbing from the last reference leads through the unseen ones to reference j. */
  lemma {:induction false} UpChain(parent: seq<int>, cs: seq<int>, j: nat, t: nat)
    requires j <= t < |cs|
    requires forall u :: j < u <= t ==> 0 <= cs[u] < |parent| && parent[cs[u]] == cs[u - 1]
    ensures Up(parent, cs[t], t - j) == cs[j]
    ensures forall n: nat :: n >= t - j ==> Up(parent, cs[t], n) == Up(parent, cs[j], n - (t - j))
    ensures forall n: nat :: n < t - j ==> Up(parent, cs[t], n) == cs[t - n]
    decreases t
  {
    if j < t {
      UpChain(parent, cs, j, t - 1);
      assert forall n: nat :: n > 0 ==> Up(parent, cs[t], n) == Up(parent, cs[t - 1], n - 1);
    }
  }

  /** A message without a mother below it in the chain gets the last reference. */
  lemma {:induction false} ChainIsFree(parent: seq<int>, cs: seq<int>, j: nat, own: int)
    requires j < |cs|
    requires forall u :: j < u < |cs| ==> 0 <= cs[u] < |parent| && parent[cs[u]] == cs[u - 1] && cs[u] != own
    requires !Climbs(parent, cs[j], own)
    ensures !Climbs(parent, cs[|cs| - 1], own)
  {
    var t := |cs| - 1;
    UpChain(parent, cs, j, t);
    forall n: nat
      ensures Up(parent, cs[t], n) != own
    {
      if n < t - j {
        assert Up(parent, cs[t], n) == cs[t - n];
      } else {
        assert Up(parent, cs[t], n) == Up(parent, cs[j], n - (t - j));
      }
    }
  }

  /** From message n on, x keeps its mother: it is no message, or its own step is over. */
  lemma {:induction false} MotherLasts(msgs: seq<Message>, n: nat, n': nat, x: int)
    requires FallbacksFresh(msgs) && n <= n' <= |msgs| && (0 <= x < n || |msgs| <= x)
    requires x < |MothersUpTo(msgs, n)| && MothersUpTo(msgs, n)[x] != NIL
    ensures x < |MothersUpTo(msgs, n')| && MothersUpTo(msgs, n')[x] == MothersUpTo(msgs, n)[x]
    decreases n'
  {
    hide ThreadedUpTo, MothersUpTo, MessageLinked, Followed;
    if n < n' {
      MotherLasts(msgs, n, n' - 1, x);
      NextMessage(msgs, n' - 1);
      var l := ThreadedUpTo(msgs, n');
      MessageKeeps(MothersUpTo(msgs, n' - 1), l.size, l.names, msgs[n' - 1].references, n' - 1, x);
    }
  }

  /** Message i refers to message k and then, from reference j + 1 on, only to unseen names; when its references have
      been followed, k is not i, nor below it. */
  ghost predicate Bridged(msgs: seq<Message>, i: nat, j: nat, k: nat) {
    && i < |msgs| && k < |msgs| && Unseen(msgs, i, j)
    && msgs[i].references[j] == UniqueNames(msgs)[k] && !Climbs(Midway(msgs, i), k, i)
  }

  lemma {:induction false} ChainClimbs(parent: seq<int>, cs: seq<int>, j: nat, own: int)
    requires j < |cs| && forall u :: j < u < |cs| ==> 0 <= cs[u] < |parent| && parent[cs[u]] == cs[u - 1]
    requires 0 <= own < |parent| && parent[own] == cs[|cs| - 1]
    ensures Climbs(parent, own, cs[j])
  {
    var t := |cs| - 1;
    UpChain(parent, cs, j, t);
    assert Up(parent, own, t - j + 1) == Up(parent, parent[own], t - j) == cs[j];
  }

  /** After its own step message i stands at the end of the chain. */
  lemma {:induction false} BridgeBuilt(msgs: seq<Message>, i: nat, j: nat, k: nat)
    requires FallbacksFresh(msgs) && Bridged(msgs, i, j, k)
    ensures var (refs, now) := (msgs[i].references, MothersUpTo(msgs, i + 1));
            var cs := ContainersOf(ThreadedUpTo(msgs, i + 1).names, refs);
            && i < |msgs| && j < |refs| && cs[j] == k && i != k && i < |now| && now[i] == cs[|cs| - 1]
            && (forall u :: j < u < |cs| ==> |msgs| <= cs[u] < |now| && now[cs[u]] == cs[u - 1])
  {
    hide ThreadedUpTo, MothersUpTo, MessageLinked, Followed, UniqueNames, PairsLinked, Unseen, Indexes, Midway;
    var (l', refs) := (ThreadedUpTo(msgs, i + 1), msgs[i].references);
    NextMessage(msgs, i);
    UnseenIndex(msgs, i, j);
    var (cs, mid) := (ContainersOf(l'.names, refs), Midway(msgs, i));
    NamedMessage(msgs, i + 1, k);
    forall u | j < u < |cs|
      ensures |msgs| <= cs[u] < |mid| && mid[cs[u]] == cs[u - 1]
    {
      UnseenLinked(msgs, i, j, u);
    }
    ChainIsFree(mid, cs, j, i);
    AfterMidway(msgs, i);
    assert cs[|cs| - 1] != NIL;
    ReachesItself(mid, k);
  }

  /** Then i ends below k: the messages nobody has do not break the chain. */
  lemma {:induction false} BridgeHolds(msgs: seq<Message>, i: nat, j: nat, k: nat)
    requires FallbacksFresh(msgs) && Bridged(msgs, i, j, k)
    ensures Climbs(MothersUpTo(msgs, |msgs|), i, k) && i != k
  {
    hide ThreadedUpTo, MothersUpTo, MessageLinked, Followed, Bridged, Climbs, FallbacksFresh;
    BridgeBuilt(msgs, i, j, k);
    NextMessage(msgs, i);
    var cs := ContainersOf(ThreadedUpTo(msgs, i + 1).names, msgs[i].references);
    var (now, last) := (MothersUpTo(msgs, i + 1), MothersUpTo(msgs, |msgs|));
    forall u | j < u < |cs|
      ensures 0 <= cs[u] < |last| && last[cs[u]] == cs[u - 1]
    {
      assert cs[u - 1] != NIL;
      MotherLasts(msgs, i + 1, |msgs|, cs[u]);
    }
    assert cs[|cs| - 1] != NIL;
    MotherLasts(msgs, i + 1, |msgs|, i);
    ChainClimbs(last, cs, j, i);
  }

  lemma ReachesItself(parent: seq<int>, x: int)
    ensures Climbs(parent, x, x)
  {
    assert Up(parent, x, 0) == x;
  }

  lemma AfterMidway(msgs: seq<Message>, i: nat)
    requires i < |msgs| && msgs[i].references != []
    ensures var cs := ContainersOf(ThreadedUpTo(msgs, i + 1).names, msgs[i].references);
            i < |Midway(msgs, i)| && MothersUpTo(msgs, i + 1) == OwnLinked(Midway(msgs, i), cs[|cs| - 1], i)
  {
    hide ThreadedUpTo, PairsLinked, Grown, OwnLinked, Followed;
    NextMessage(msgs, i);
  }

  lemma UnseenIndex(msgs: seq<Message>, i: nat, j: nat)
    requires i < |msgs| && Unseen(msgs, i, j)
    ensures j < |msgs[i].references|
  {
  }

  lemma NamedMessage(msgs: seq<Message>, n: nat, k: nat)
    requires FallbacksFresh(msgs) && n <= |msgs| && k < |msgs|
    ensures var l := ThreadedUpTo(msgs, n);
            UniqueNames(msgs)[k] in l.names && l.names[UniqueNames(msgs)[k]] == k && Indexes(l.names, l.size)
  {
    NamesKept(msgs, n);
  }
}
