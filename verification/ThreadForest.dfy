/** Steps 1 and 2 of REFERENCES threading for a whole mailbox: every message gets its container,
    the references are followed, and the parentless containers are strung into one list. */
module ThreadForest {
  import opened Arrange
  import opened Forests
  import opened Containers
  import opened HashTable
  import opened Linking
  import opened Messages
  import opened Options
  import opened ReferenceLinks

  // ----- step 1 -----

  /** The name a message is filed under: its Message-ID unless an earlier message has taken it. */
  ghost function UniqueNames(msgs: seq<Message>): (names: seq<string>)
    ensures |names| == |msgs|
  {
    if msgs == [] then []
    else
      var before := UniqueNames(msgs[..|msgs| - 1]);
      var m := msgs[|msgs| - 1];
      before + [if m.messageId.None? || m.messageId.value in before then m.fallback else m.messageId.value]
  }

  ghost predicate Files(names: map<string, int>, unique: seq<string>) {
    && (forall i :: 0 <= i < |unique| ==> unique[i] in names && names[unique[i]] == i)
  }

  /** The links before any reference is followed. */
  ghost function Registered(unique: seq<string>): Links {
    if unique == [] then Links(map[], 0, Nil)
    else
      Named(Registered(unique[..|unique| - 1]), unique[|unique| - 1])
  }

  /** The links after the first n messages have been threaded. */
  ghost function ThreadedUpTo(msgs: seq<Message>, n: nat): Links
    requires n <= |msgs|
  {
    if n == 0 then Registered(UniqueNames(msgs))
    else Threaded(ThreadedUpTo(msgs, n - 1), n - 1, msgs[n - 1].references)
  }

  /** File message m under a name that is not in use. */
  method FileMessage(ht: HashTab, t: ContainerTable, name: string, m: int, ghost l: Links) returns (ghost l': Links)
    requires Stands(l, ht, t) && {ht, ht.table} !! {t} && name !in l.names
    modifies ht, ht.table, t
    ensures Stands(l', ht, t) && l' == Named(l, name) && t.cache == old(t.cache) + [m]
  {
    l' := Named(l, name);
    ht.Add(name, |t.cache|);
    var _ := t.Add(m);
    LinkedFrame(old(t.parent), old(t.sibling), old(t.child), t.parent, t.sibling, t.child, l.forest);
    NamedIndexes(l, name);
  }

  /** Every name in use is the fallback or the Message-ID of the message it files. */
  ghost predicate OwnNames(msgs: seq<Message>, unique: seq<string>) {
    |unique| <= |msgs| &&
    forall j :: 0 <= j < |unique| ==> unique[j] == msgs[j].fallback || msgs[j].messageId == Some(unique[j])
  }

  /** The next message's own name, when it is new. */
  lemma {:induction false} NameIsOwn(msgs: seq<Message>, i: nat, unique: seq<string>, name: string)
    requires i < |msgs| && FallbacksFresh(msgs) && OwnNames(msgs, unique) && |unique| == i
    requires name == (if msgs[i].messageId.None? || msgs[i].messageId.value in unique then msgs[i].fallback
                      else msgs[i].messageId.value)
    ensures name !in unique && OwnNames(msgs, unique + [name])
  {
  }

  lemma {:induction false} NextName(msgs: seq<Message>, i: nat)
    requires i < |msgs|
    ensures var before := UniqueNames(msgs[..i]);
            UniqueNames(msgs[..i + 1])
            == before + [if msgs[i].messageId.None? || msgs[i].messageId.value in before then msgs[i].fallback
                         else msgs[i].messageId.value]
  {
    assert msgs[..i + 1][..i] == msgs[..i];
  }

  method ChooseName(ht: HashTab, msgs: seq<Message>, i: nat, ghost unique: seq<string>) returns (name: string)
    requires ht.Valid() && i < |msgs| && FallbacksFresh(msgs)
    requires OwnNames(msgs, unique) && |unique| == i && unique == UniqueNames(msgs[..i])
    requires forall s :: s in ht.contents <==> s in unique
    ensures name !in unique && OwnNames(msgs, unique + [name]) && unique + [name] == UniqueNames(msgs[..i + 1])
  {
    hide UniqueNames, OwnNames, FallbacksFresh;
    name := msgs[i].fallback;
    if msgs[i].messageId.Some? {
      var found, _ := ht.Lookup(msgs[i].messageId.value);
      if !found {
        name := msgs[i].messageId.value;
      }
    }
    NameIsOwn(msgs, i, unique, name);
    NextName(msgs, i);
  }

  /** The state of the preliminary pass once the messages filed under unique are done. */
  ghost predicate Filed(msgs: seq<Message>, unique: seq<string>, l: Links, cache: seq<int>) {
    && OwnNames(msgs, unique)
    && unique == UniqueNames(msgs[..|unique|])
    && l == Registered(unique) && l.size == |unique| == |cache|
    && Files(l.names, unique)
    && (forall s :: s in l.names <==> s in unique)
    && (forall j :: 0 <= j < |cache| ==> cache[j] == j)
  }

  lemma FiledNext(msgs: seq<Message>, unique: seq<string>, l: Links, cache: seq<int>, name: string)
    requires Filed(msgs, unique, l, cache) && |unique| < |msgs| && name !in unique && OwnNames(msgs, unique + [name])
    requires unique + [name] == UniqueNames(msgs[..|unique| + 1])
    ensures Filed(msgs, unique + [name], Named(l, name), cache + [|unique|])
  {
    assert (unique + [name])[..|unique|] == unique;
  }

  lemma {:induction false} FiledFacts(msgs: seq<Message>, unique: seq<string>, l: Links, ht: HashTab, t: ContainerTable)
    requires Stands(l, ht, t) && Filed(msgs, unique, l, t.cache)
    ensures ht.Valid() && |t.cache| == |unique| && OwnNames(msgs, unique) && unique == UniqueNames(msgs[..|unique|])
    ensures (forall s :: s in ht.contents <==> s in unique) && (forall s :: s in l.names <==> s in unique)
  {
  }

  lemma {:induction false} FiledAtFirst(msgs: seq<Message>, ht: HashTab, t: ContainerTable)
    requires ht.Valid() && ht.contents == map[] && t.Sized() && |t.cache| == 0
    ensures Stands(Registered([]), ht, t) && Filed(msgs, [], Registered([]), t.cache)
  {
    assert msgs[..0] == [];
  }

  lemma {:induction false} FiledAtLast(msgs: seq<Message>, unique: seq<string>, l: Links, cache: seq<int>)
    requires Filed(msgs, unique, l, cache) && |unique| == |msgs|
    ensures unique == UniqueNames(msgs) && l == Registered(unique) && Files(l.names, unique)
    ensures |cache| == |msgs| && forall i :: 0 <= i < |msgs| ==> cache[i] == i
  {
    assert msgs[..|msgs|] == msgs;
  }

  /** Step 1, preliminary: file each message under its unique name. */
  method RegisterMessages(msgs: seq<Message>, ht: HashTab, t: ContainerTable)
    returns (unique: seq<string>, ghost l: Links)
    requires ht.Valid() && ht.contents == map[] && t.Sized() && |t.cache| == 0 && {ht, ht.table} !! {t}
    requires FallbacksFresh(msgs)
    modifies ht, ht.table, t
    ensures unique == UniqueNames(msgs) && l == Registered(unique) && Stands(l, ht, t)
    ensures Files(l.names, unique) && |t.cache| == |msgs| && forall i :: 0 <= i < |msgs| ==> t.cache[i] == i
  {
    hide *;
    FiledAtFirst(msgs, ht, t);
    unique := [];
    l := Registered([]);
    var i := 0;
    while i < |msgs|
      invariant i == |unique| <= |msgs| && Filed(msgs, unique, l, t.cache) && Stands(l, ht, t)
    {
      FiledFacts(msgs, unique, l, ht, t);
      var name := ChooseName(ht, msgs, i, unique);
      FiledNext(msgs, unique, l, t.cache, name);
      l := FileMessage(ht, t, name, i, l);
      unique := unique + [name];
      i := i + 1;
    }
    FiledAtLast(msgs, unique, l, t.cache);
  }

  /** Names are only added, never redirected. */
  ghost predicate Extends(a: map<string, int>, b: map<string, int>) {
    forall s :: s in a ==> s in b && b[s] == a[s]
  }

  lemma {:induction false} FollowedExtends(l: Links, refs: seq<string>)
    ensures Extends(l.names, Followed(l, refs).names)
    decreases |refs|
  {
    if refs != [] {
      FollowedExtends(l, refs[..|refs| - 1]);
    }
  }

  /** The mothers after the first n messages, told without children and sisters. */
  ghost function MothersUpTo(msgs: seq<Message>, n: nat): (parent: seq<int>)
    requires n <= |msgs|
    ensures |parent| >= |msgs|
  {
    if n == 0 then seq(|msgs|, _ => NIL)
    else
      var l := ThreadedUpTo(msgs, n);
      MessageLinked(MothersUpTo(msgs, n - 1), l.size, l.names, msgs[n - 1].references, n - 1)
  }

  /** The mother message i is given in its own step. */
  ghost function OwnMother(msgs: seq<Message>, i: nat): int
    requires i < |msgs|
  {
    MotherGiven(ThreadedUpTo(msgs, i), i, msgs[i].references)
  }

  /** Each of the first n messages that was given a mother in its own step still has her. */
  ghost predicate MothersStay(msgs: seq<Message>, n: nat, parent: seq<int>) {
    && n <= |msgs| && n <= |parent|
    && forall i :: 0 <= i < n && OwnMother(msgs, i) != NIL ==> parent[i] == OwnMother(msgs, i)
  }

  /** The first n containers hold the messages, the others are dummies. */
  ghost predicate Holds(cache: seq<int>, n: nat) {
    n <= |cache| && forall x :: 0 <= x < |cache| ==> cache[x] == if x < n then x else NIL
  }

  /** Step 1 after the first i messages. */
  ghost predicate LinkedUpTo(msgs: seq<Message>, i: nat, unique: seq<string>, ht: HashTab, t: ContainerTable, l: Links)
    reads ht, ht.table, t
  {
    && Stands(l, ht, t) && i <= |msgs| == |unique| && l == ThreadedUpTo(msgs, i)
    && Files(l.names, unique) && Holds(t.cache, |msgs|) && MothersStay(msgs, i, t.parent)
    && t.parent == MothersUpTo(msgs, i)
  }

  lemma {:induction false} FilesKept(names: map<string, int>, more: map<string, int>, unique: seq<string>)
    requires Files(names, unique) && Extends(names, more)
    ensures Files(more, unique)
  {
  }

  /** Step 1 for the next message. */
  method LinkNext(msgs: seq<Message>, i: nat, unique: seq<string>, ht: HashTab, t: ContainerTable, ghost l: Links)
    returns (ghost l': Links)
    requires LinkedUpTo(msgs, i, unique, ht, t, l) && {ht, ht.table} !! {t} && i < |msgs|
    modifies ht, ht.table, t
    ensures LinkedUpTo(msgs, i + 1, unique, ht, t, l')
  {
    hide Stands, Extends, MotherGiven, MessageLinked;
    assert unique[i] in l.names && l.names[unique[i]] == i;
    FollowedExtends(l, msgs[i].references);
    l' := ThreadMessage(ht, t, i, unique[i], msgs[i].references, l);
    FilesKept(l.names, l'.names, unique);
    forall j | 0 <= j < i && OwnMother(msgs, j) != NIL
      ensures t.parent[j] == OwnMother(msgs, j)
    {
      MessageKeeps(old(t.parent), l'.size, l'.names, msgs[i].references, i, j);
    }
  }

  lemma {:induction false} LinkedAtFirst(msgs: seq<Message>, unique: seq<string>, ht: HashTab, t: ContainerTable,
                                         l: Links)
    requires Stands(l, ht, t) && |unique| == |msgs| && unique == UniqueNames(msgs) && l == Registered(unique)
    requires Files(l.names, unique) && |t.cache| == |msgs| && Holds(t.cache, |msgs|)
    ensures LinkedUpTo(msgs, 0, unique, ht, t, l)
  {
    hide Registered, UniqueNames, OwnMother;
    assert |t.parent| == |msgs|;
    forall x | 0 <= x < |msgs|
      ensures t.parent[x] == NIL
    {
      RegisteredFlat(unique);
      RootIffParentless(t, l.forest, x);
    }
    assert t.parent == MothersUpTo(msgs, 0);
  }

  /** Before any reference is followed there are only roots. */
  lemma {:induction false} RegisteredFlat(unique: seq<string>)
    ensures forall x :: x in Ids(Registered(unique).forest) ==> x in Tops(Registered(unique).forest)
    decreases |unique|
  {
    if unique != [] {
      RegisteredFlat(unique[..|unique| - 1]);
    }
  }

  lemma {:induction false} LinkedAtLast(msgs: seq<Message>, unique: seq<string>, ht: HashTab, t: ContainerTable,
                                        l: Links)
    requires LinkedUpTo(msgs, |msgs|, unique, ht, t, l)
    ensures Stands(l, ht, t) && l == ThreadedUpTo(msgs, |msgs|) && Holds(t.cache, |msgs|)
    ensures Files(l.names, unique) && MothersStay(msgs, |msgs|, t.parent) && t.parent == MothersUpTo(msgs, |msgs|)
  {
    hide Stands, ThreadedUpTo, MothersUpTo, MothersStay, Files;
  }

  /** Step 1: thread every message by its references. */
  method LinkMessages(msgs: seq<Message>, unique: seq<string>, ht: HashTab, t: ContainerTable, ghost l: Links)
    returns (ghost l': Links)
    requires Stands(l, ht, t) && {ht, ht.table} !! {t}
    requires |unique| == |msgs| && unique == UniqueNames(msgs) && l == Registered(unique) && Files(l.names, unique)
    requires |t.cache| == |msgs| && Holds(t.cache, |msgs|)
    modifies ht, ht.table, t
    ensures Stands(l', ht, t) && l' == ThreadedUpTo(msgs, |msgs|) && Holds(t.cache, |msgs|)
    ensures Files(l'.names, unique) && MothersStay(msgs, |msgs|, t.parent) && t.parent == MothersUpTo(msgs, |msgs|)
  {
    hide *;
    LinkedAtFirst(msgs, unique, ht, t, l);
    l' := l;
    var i := 0;
    while i < |msgs|
      invariant 0 <= i <= |msgs| && LinkedUpTo(msgs, i, unique, ht, t, l')
    {
      l' := LinkNext(msgs, i, unique, ht, t, l');
      i := i + 1;
    }
    LinkedAtLast(msgs, unique, ht, t, l');
  }

  /** A mother is in the forest what she is in the links. */
  lemma {:induction false} MothersInForest(msgs: seq<Message>, parent: seq<int>, sib: seq<int>, child: seq<int>,
                                           v: Forest, i: nat)
    requires MothersStay(msgs, |msgs|, parent) && Linked(parent, sib, child, v) && Distinct(v)
    requires i < |msgs| && i in Ids(v) && OwnMother(msgs, i) != NIL
    ensures i in Tops(KidsOf(v, OwnMother(msgs, i)))
  {
    MotherLists(parent, sib, child, v, i);
  }

  /** v is the forest of the recorded mothers: her daughters are her children, and what can climb to her is below
      her. */
  ghost predicate TellsMothers(v: Forest, parent: seq<int>) {
    && Covers(v, |parent|)
    && (forall x :: 0 <= x < |parent| ==> if parent[x] == NIL then x in Tops(v) else x in Tops(KidsOf(v, parent[x])))
    && (forall c, x :: c in Ids(v) && x in Ids(v) ==> (Within(v, x, c) <==> Climbs(parent, c, x)))
  }

  lemma {:induction false} EncodedMothers(t: ContainerTable, v: Forest)
    requires Encodes(t, v)
    ensures TellsMothers(v, t.parent)
  {
    hide Linked, Within, Climbs;
    forall x | 0 <= x < |t.parent|
      ensures if t.parent[x] == NIL then x in Tops(v) else x in Tops(KidsOf(v, t.parent[x]))
    {
      MotherLists(t.parent, t.sibling, t.child, v, x);
    }
    forall c, x | c in Ids(v) && x in Ids(v)
      ensures Within(v, x, c) <==> Climbs(t.parent, c, x)
    {
      WithinIsAncestry(t.parent, t.sibling, t.child, v, x, c);
    }
  }

  // ----- what the names stand for -----

  lemma {:induction false} FollowedIndexes(l: Links, refs: seq<string>)
    requires Indexes(l.names, l.size)
    ensures Indexes(Followed(l, refs).names, Followed(l, refs).size)
    decreases |refs|
  {
    if refs != [] {
      var (rest, name) := (refs[..|refs| - 1], refs[|refs| - 1]);
      FollowedIndexes(l, rest);
      if name !in Followed(l, rest).names {
        NamedIndexes(Followed(l, rest), name);
      }
    }
  }

  /** The names of the first n messages, filed. */
  lemma {:induction false} RegisteredFiles(msgs: seq<Message>, n: nat)
    requires FallbacksFresh(msgs) && n <= |msgs|
    ensures var unique := UniqueNames(msgs[..n]);
            && Filed(msgs, unique, Registered(unique), seq(n, j => j))
            && Indexes(Registered(unique).names, Registered(unique).size)
  {
    if n == 0 {
      assert Registered([]) == Links(map[], 0, Nil);
    } else {
      var k := n - 1;
      var before := UniqueNames(msgs[..k]);
      RegisteredFiles(msgs, k);
      NextName(msgs, k);
      var name := UniqueNames(msgs[..k + 1])[k];
      assert UniqueNames(msgs[..n]) == before + [name];
      RegisteredMore(msgs, k, before, name);
    }
  }

  lemma {:induction false} RegisteredMore(msgs: seq<Message>, k: nat, before: seq<string>, name: string)
    requires FallbacksFresh(msgs) && k < |msgs| && before == UniqueNames(msgs[..k])
    requires UniqueNames(msgs[..k + 1]) == before + [name]
    requires Filed(msgs, before, Registered(before), seq(k, j => j))
    requires Indexes(Registered(before).names, Registered(before).size)
    ensures Filed(msgs, before + [name], Registered(before + [name]), seq(k + 1, j => j))
    ensures Indexes(Registered(before + [name]).names, Registered(before + [name]).size)
  {
    RegisteredLast(before, name);
    NextName(msgs, k);
    NamesFiled(msgs, before, Registered(before), seq(k, j => j));
    CountUp(k);
    hide *;
    NameIsOwn(msgs, k, before, name);
    FiledNext(msgs, before, Registered(before), seq(k, j => j), name);
    NamedIndexes(Registered(before), name);
  }

  lemma RegisteredLast(before: seq<string>, name: string)
    ensures Registered(before + [name]) == Named(Registered(before), name)
  {
    assert (before + [name])[..|before|] == before;
  }

  lemma NamesFiled(msgs: seq<Message>, unique: seq<string>, l: Links, cache: seq<int>)
    requires Filed(msgs, unique, l, cache)
    ensures OwnNames(msgs, unique) && |unique| == |cache| && forall s :: s in l.names <==> s in unique
  {
  }

  lemma CountUp(k: nat)
    ensures seq(k, j => j) + [k] == seq(k + 1, j => j)
  {
  }

  /** Message k keeps its name through all of step 1. */
  lemma {:induction false} NamesKept(msgs: seq<Message>, n: nat)
    requires FallbacksFresh(msgs) && n <= |msgs|
    ensures var l := ThreadedUpTo(msgs, n);
            Files(l.names, UniqueNames(msgs)) && Indexes(l.names, l.size)
    decreases n
  {
    if n == 0 {
      RegisteredFiles(msgs, |msgs|);
      assert msgs[..|msgs|] == msgs;
    } else {
      NamesKept(msgs, n - 1);
      FollowedExtends(ThreadedUpTo(msgs, n - 1), msgs[n - 1].references);
      FollowedIndexes(ThreadedUpTo(msgs, n - 1), msgs[n - 1].references);
    }
  }

  /** When the last reference of message i is the name of message k, message k is the mother i is given,
      unless k is i itself or below it at that time. */
  lemma {:induction false} OwnMotherNamed(msgs: seq<Message>, i: nat, k: nat)
    requires FallbacksFresh(msgs) && i < |msgs| && k < |msgs| && msgs[i].references != []
    requires msgs[i].references[|msgs[i].references| - 1] == UniqueNames(msgs)[k]
    ensures var below := Within(Followed(ThreadedUpTo(msgs, i), msgs[i].references).forest, i, k);
            OwnMother(msgs, i) == if below then NIL else k
  {
    NamesKept(msgs, i);
    FollowedExtends(ThreadedUpTo(msgs, i), msgs[i].references);
  }

  // ----- step 2 -----

  /** The same forest with its trees in another order. */
  ghost predicate Reordered(f: Forest, v: Forest) {
    && Distinct(f) && Ids(f) == Ids(v)
    && (forall x :: x in Tops(f) <==> x in Tops(v))
    && (forall x :: KidsOf(f, x) == KidsOf(v, x))
  }

  ghost predicate KidsSafe(parent: seq<int>, sib: seq<int>, child: seq<int>, v: Forest, x: int) {
    && 0 <= x < |child| && x < |sib|
    && Chain(child, sib, child[x], KidsOf(v, x)) && Mothers(parent, x, KidsOf(v, x))
  }

  /** Part of the way through the hash table: the roots in order are strung from first to con. */
  ghost predicate Strung(parent: seq<int>, sib: seq<int>, child: seq<int>, v: Forest, order: seq<int>, first: int,
                         con: int) {
    && |parent| == |sib| == |child| && Distinct(v) && Covers(v, |parent|)
    && (forall x :: x in Tops(v) ==> KidsSafe(parent, sib, child, v, x))
    && (forall x :: 0 <= x < |parent| ==> (parent[x] == NIL <==> x in Tops(v)))
    && NoRepeat(order) && (forall x :: x in order ==> x in Tops(v))
    && (forall x :: x in Tops(v) && x !in order ==> sib[x] == NIL)
    && Chain(child, sib, first, Arranged(order, v))
    && (if order == [] then first == con == NIL
        else con == order[|order| - 1] && 0 <= con < |sib| && sib[con] == NIL)
  }

  /** Giving a root a sister disturbs nothing below any root. */
  lemma KidsStaySafe(parent: seq<int>, sib: seq<int>, child: seq<int>, v: Forest, con: int, nxc: int, x: int)
    requires Distinct(v) && con in Tops(v) && 0 <= con < |sib| && x in Tops(v) && KidsSafe(parent, sib, child, v, x)
    ensures KidsSafe(parent, sib[con := nxc], child, v, x)
  {
    KidsOfFacts(v, x);
    if x != con {
      TopsApart(v, x, con);
    }
    ChainFrame(child, sib, child, sib[con := nxc], child[x], KidsOf(v, x));
  }

  lemma ChainGetsLonger(parent: seq<int>, sib: seq<int>, child: seq<int>, v: Forest, order: seq<int>, first: int,
                        nxc: int)
    requires Distinct(v) && order != [] && NoRepeat(order) && nxc in Tops(v) && nxc !in order
    requires forall x :: x in order ==> x in Tops(v)
    requires Chain(child, sib, first, Arranged(order, v))
    requires 0 <= order[|order| - 1] < |sib| && 0 <= nxc < |sib| && sib[nxc] == NIL
    requires KidsSafe(parent, sib[order[|order| - 1] := nxc], child, v, nxc)
    ensures Chain(child, sib[order[|order| - 1] := nxc], first, Arranged(order + [nxc], v))
  {
    var g := Arranged(order, v);
    ArrangedMore(order, nxc, v);
    ArrangedIds(order, v);
    ArrangedTops(order, v);
    LastOfTops(g);
    AppendNil(g);
    ChainRetail(child, sib, child, sib[order[|order| - 1] := nxc], first, g, Nil, Cons(nxc, KidsOf(v, nxc), Nil));
  }

  lemma StrungMore(parent: seq<int>, sib: seq<int>, child: seq<int>, v: Forest, order: seq<int>, first: int, con: int,
                   nxc: int)
    requires Strung(parent, sib, child, v, order, first, con) && nxc in Tops(v) && nxc !in order
    ensures con == NIL ==> Strung(parent, sib, child, v, order + [nxc], nxc, nxc)
    ensures con != NIL ==> 0 <= con < |sib| && Strung(parent, sib[con := nxc], child, v, order + [nxc], first, nxc)
  {
    if con == NIL {
      assert KidsSafe(parent, sib, child, v, nxc);
      assert Arranged([nxc], v) == Cons(nxc, KidsOf(v, nxc), Nil);
      assert order + [nxc] == [nxc];
    } else {
      StrungNext(parent, sib, child, v, order, first, con, nxc);
    }
  }

  lemma {:induction false} StrungNext(parent: seq<int>, sib: seq<int>, child: seq<int>, v: Forest, order: seq<int>,
                                      first: int, con: int, nxc: int)
    requires Strung(parent, sib, child, v, order, first, con) && nxc in Tops(v) && nxc !in order && con != NIL
    ensures 0 <= con < |sib| && Strung(parent, sib[con := nxc], child, v, order + [nxc], first, nxc)
  {
    assert KidsSafe(parent, sib, child, v, nxc);
    forall x | x in Tops(v)
      ensures KidsSafe(parent, sib[con := nxc], child, v, x)
    {
      KidsStaySafe(parent, sib, child, v, con, nxc, x);
    }
    ChainGetsLonger(parent, sib, child, v, order, first, nxc);
    hide Chain, Arranged, KidsSafe;
    assert con in order;
  }

  lemma LastOfTops(f: Forest)
    requires f.Cons?
    ensures Tops(f) != [] && Last(f) == Tops(f)[|Tops(f)| - 1]
  {
  }

  /** Of the names seen so far, exactly the roots are strung. */
  ghost predicate Swept(l: Links, order: seq<int>, seen: set<string>) {
    forall s :: s in l.names ==> (l.names[s] in order <==> s in seen && l.names[s] in Tops(l.forest))
  }

  lemma {:induction false} SweptNext(l: Links, order: seq<int>, seen: set<string>, name: string)
    requires Swept(l, order, seen) && Indexes(l.names, l.size) && name in l.names && name !in seen
    ensures var x := l.names[name];
            && x !in order && 0 <= x < l.size
            && Swept(l, if x in Tops(l.forest) then order + [x] else order, seen + {name})
  {
  }

  lemma {:induction false} StrungAt(parent: seq<int>, sib: seq<int>, child: seq<int>, v: Forest, order: seq<int>,
                                    first: int, con: int, x: int)
    requires Strung(parent, sib, child, v, order, first, con) && 0 <= x < |parent|
    ensures |parent| == |sib| && (parent[x] == NIL <==> x in Tops(v))
    ensures if order == [] then con == NIL else con != NIL && 0 <= con < |sib|
  {
  }

  /** Step 2 for one bucket of the hash table. */
  method StringBucket(he: seq<Entry>, t: ContainerTable, first: int, con: int, ghost l: Links, ghost order: seq<int>,
                      ghost seen: set<string>)
    returns (first': int, con': int, ghost order': seq<int>, ghost seen': set<string>)
    requires Strung(t.parent, t.sibling, t.child, l.forest, order, first, con) && Indexes(l.names, l.size)
             && l.size == |t.parent|
    requires Swept(l, order, seen)
    requires forall j :: 0 <= j < |he| ==>
               he[j].name in l.names && he[j].data == l.names[he[j].name] && he[j].name !in seen
    requires forall j, k :: 0 <= j < k < |he| ==> he[j].name != he[k].name
    modifies t`sibling
    ensures Strung(t.parent, t.sibling, t.child, l.forest, order', first', con') && Swept(l, order', seen')
    ensures seen' == seen + set j | 0 <= j < |he| :: he[j].name
  {
    hide Strung, Swept, Indexes, Tops;
    first', con', order', seen' := first, con, order, seen;
    for j := 0 to |he|
      invariant Strung(t.parent, t.sibling, t.child, l.forest, order', first', con') && Swept(l, order', seen')
      invariant seen' == seen + set k | 0 <= k < j :: he[k].name
    {
      var nxc := he[j].data;
      SweptNext(l, order', seen', he[j].name);
      StrungAt(t.parent, t.sibling, t.child, l.forest, order', first', con', nxc);
      if t.parent[nxc] == NIL {
        StrungMore(t.parent, t.sibling, t.child, l.forest, order', first', con', nxc);
        if con' != NIL {
          t.sibling := t.sibling[con' := nxc];
        } else {
          first' := nxc;
        }
        con', order' := nxc, order' + [nxc];
      }
      seen' := seen' + {he[j].name};
    }
  }

  /** Step 2: string the parentless containers together, in hash table order. */
  method CollectRoots(ht: HashTab, t: ContainerTable, ghost l: Links) returns (first: int, ghost f: Forest)
    requires Stands(l, ht, t)
    modifies t`sibling
    ensures t.Sized()
    ensures Chain(t.child, t.sibling, first, f) && Reordered(f, l.forest) && Mothers(t.parent, NIL, f)
  {
    ghost var v := l.forest;
    ghost var order: seq<int> := [];
    var con := NIL;
    first := NIL;
    StrungAtFirst(t, v);
    ghost var seen: set<string> := {};
    for i := 0 to ht.table.Length
      invariant Strung(t.parent, t.sibling, t.child, v, order, first, con) && Swept(l, order, seen)
      invariant forall s :: s in seen <==> s in l.names && Polynomial(s) % ht.table.Length < i
    {
      assert GoodBucket(ht.table[i], i, ht.table.Length, l.names);
      first, con, order, seen := StringBucket(ht.table[i], t, first, con, l, order, seen);
    }
    f := Arranged(order, v);
    forall x | x in Tops(v)
      ensures x in order
    {
      TopsAreIds(v);
      assert x in l.names.Values;
    }
    ArrangedFacts(order, v);
    MothersOfSuffix(t, v, order, first, con, 0);
    assert order[0..] == order;
  }

  lemma StrungAtFirst(t: ContainerTable, v: Forest)
    requires Encodes(t, v)
    ensures Strung(t.parent, t.sibling, t.child, v, [], NIL, NIL)
  {
    TopsAreIds(v);
    forall x | x in Tops(v)
      ensures KidsSafe(t.parent, t.sibling, t.child, v, x) && t.sibling[x] == NIL
    {
      KidsLinked(t.parent, t.sibling, t.child, v, x);
      RootSister(t.parent, t.sibling, t.child, v, x);
    }
    forall x | 0 <= x < |t.parent|
      ensures t.parent[x] == NIL <==> x in Tops(v)
    {
      RootIffParentless(t, v, x);
    }
  }

  lemma MothersOfSuffix(t: ContainerTable, v: Forest, order: seq<int>, first: int, con: int, n: nat)
    requires Strung(t.parent, t.sibling, t.child, v, order, first, con) && n <= |order|
    ensures Mothers(t.parent, NIL, Arranged(order[n..], v))
    decreases |order| - n
  {
    if n < |order| {
      MothersOfSuffix(t, v, order, first, con, n + 1);
      assert order[n..][1..] == order[n + 1..];
      assert order[n] in order && KidsSafe(t.parent, t.sibling, t.child, v, order[n]);
    }
  }
}
