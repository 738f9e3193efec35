/** mail_thread_references: all the steps of REFERENCES threading, one after the other. */
module Threading {
  import opened AncestryOrigins
  import opened Arrange
  import opened Containers
  import opened FinalSubjects
  import opened Forests
  import opened HashTable
  import opened Linking
  import opened MergeLinks
  import opened Messages
  import opened MissingReferences
  import opened Prune
  import opened ReferenceLinks
  import opened SubjectGather
  import opened SubjectMerge
  import opened ThreadAncestry
  import opened ThreadForest
  import opened ThreadNodes
  import opened ThreadSort

  const REFHASHSIZE: nat := 1009

  // ----- counting messages -----

  ghost function Holders(sc: seq<int>, ids: set<int>, m: int): set<int> {
    set x | x in ids && IsMessage(sc, x) && sc[x] == m
  }

  lemma HoldersSplit(sc: seq<int>, a: set<int>, b: set<int>, m: int)
    requires a !! b
    ensures |Holders(sc, a + b, m)| == |Holders(sc, a, m)| + |Holders(sc, b, m)|
  {
    assert Holders(sc, a + b, m) == Holders(sc, a, m) + Holders(sc, b, m);
  }

  lemma HoldersOne(sc: seq<int>, x: int, m: int)
    ensures |Holders(sc, {x}, m)| == if IsMessage(sc, x) && sc[x] == m then 1 else 0
  {
    assert Holders(sc, {x}, m) == if IsMessage(sc, x) && sc[x] == m then {x} else {};
  }

  lemma {:induction false} HoldersCons(sc: seq<int>, x: int, a: set<int>, b: set<int>, m: int)
    requires x !in a && x !in b && a !! b
    ensures |Holders(sc, {x} + a + b, m)|
            == (if IsMessage(sc, x) && sc[x] == m then 1 else 0) + |Holders(sc, a, m)| + |Holders(sc, b, m)|
  {
    hide Holders;
    HoldersSplit(sc, {x} + a, b, m);
    HoldersSplit(sc, {x}, a, m);
    HoldersOne(sc, x, m);
  }

  lemma {:induction false} HeldCons(sc: seq<int>, f: Forest, m: int)
    requires f.Cons?
    ensures Held(sc, f)[m] == (if IsMessage(sc, f.id) && sc[f.id] == m then 1 else 0)
                              + Held(sc, f.kids)[m] + Held(sc, f.rest)[m]
  {
  }

  /** How often a forest holds a message depends only on which nodes it has. */
  lemma {:induction false} HeldCount(sc: seq<int>, f: Forest, m: int)
    requires Distinct(f)
    ensures Held(sc, f)[m] == |Holders(sc, Ids(f), m)|
    decreases f
  {
    if f.Cons? {
      HeldCount(sc, f.kids, m);
      HeldCount(sc, f.rest, m);
      assert Ids(f) == {f.id} + Ids(f.kids) + Ids(f.rest);
      HeldCons(sc, f, m);
      hide Held, Holders, Ids;
      HoldersCons(sc, f.id, Ids(f.kids), Ids(f.rest), m);
    } else {
      assert Holders(sc, {}, m) == {};
    }
  }

  lemma HeldByIds(sc: seq<int>, f: Forest, f': Forest)
    requires Distinct(f) && Distinct(f') && Ids(f') == Ids(f)
    ensures Held(sc, f') == Held(sc, f)
  {
    forall m
      ensures Held(sc, f')[m] == Held(sc, f)[m]
    {
      HeldCount(sc, f, m);
      HeldCount(sc, f', m);
    }
  }

  /** Each of the messages 0 to n - 1 exactly once. */
  ghost predicate EachOnce(held: multiset<int>, n: nat) {
    forall m :: held[m] == if 0 <= m < n then 1 else 0
  }

  lemma EachOnceSize(held: multiset<int>, n: nat)
    requires EachOnce(held, n)
    ensures |held| == n
  {
    if n == 0 {
      forall m
        ensures m !in held
      {
        assert held[m] == 0;
      }
      assert held == multiset{};
    } else {
      var rest := held - multiset{n - 1};
      EachOnceSize(rest, n - 1);
      assert held[n - 1] == 1;
      assert held == rest + multiset{n - 1};
    }
  }

  /** The containers hold every message once: container m holds message m. */
  lemma {:induction false} ContainersHold(cache: seq<int>, f: Forest, n: nat, m: int)
    requires Holds(cache, n) && Distinct(f) && forall x :: x in Ids(f) ==> 0 <= x < |cache|
    ensures Held(cache, f)[m] == if 0 <= m < n && m in Ids(f) then 1 else 0
    decreases f
  {
    if f.Cons? {
      assert f.id in Ids(f) && Ids(f.kids) <= Ids(f) && Ids(f.rest) <= Ids(f);
      ContainersHold(cache, f.kids, n, m);
      ContainersHold(cache, f.rest, n, m);
    }
  }

  lemma DummiesHaveMothers(cache: seq<int>, parent: seq<int>, m: int, f: Forest)
    requires Mothers(parent, m, f)
    ensures DummyParents(cache, parent, m, f)
    decreases f
  {
  }

  // ----- the steps in order -----

  /** Every message that was given a mother in its own step is her child in v. */
  ghost predicate OwnMothersListed(msgs: seq<Message>, v: Forest) {
    forall i :: 0 <= i < |msgs| && OwnMother(msgs, i) != NIL ==> i in Tops(KidsOf(v, OwnMother(msgs, i)))
  }

  /** Steps 1 and 2: the forest of containers, strung from first. */
  method BuildForest(msgs: seq<Message>, ht: HashTab, t: ContainerTable)
    returns (first: int, ghost l: Links, ghost f: Forest)
    requires FallbacksFresh(msgs)
    requires ht.Valid() && ht.contents == map[] && t.Sized() && |t.cache| == 0 && {ht, ht.table} !! {t}
    modifies ht, ht.table, t
    ensures ht.Valid() && t.Sized() && Holds(t.cache, |msgs|)
    ensures l == ThreadedUpTo(msgs, |msgs|) && Reordered(f, l.forest)
    ensures Files(l.names, UniqueNames(msgs)) && OwnMothersListed(msgs, l.forest)
    ensures TellsMothers(l.forest, MothersUpTo(msgs, |msgs|))
    ensures Chain(t.child, t.sibling, first, f) && Mothers(t.parent, NIL, f)
    ensures EachOnce(Held(t.cache, f), |msgs|) && forall x :: x in Ids(f) ==> 0 <= x < |t.cache|
  {
    var unique;
    unique, l := RegisterMessages(msgs, ht, t);
    l := LinkMessages(msgs, unique, ht, t, l);
    forall i | 0 <= i < |msgs| && OwnMother(msgs, i) != NIL
      ensures i in Tops(KidsOf(l.forest, OwnMother(msgs, i)))
    {
      MothersInForest(msgs, t.parent, t.sibling, t.child, l.forest, i);
    }
    EncodedMothers(t, l.forest);
    first, f := CollectRoots(ht, t, l);
    forall m
      ensures Held(t.cache, f)[m] == if 0 <= m < |msgs| then 1 else 0
    {
      ContainersHold(t.cache, f, |msgs|, m);
    }
  }

  /** Step 3: prune the dummies and turn the containers into nodes. */
  method BuildNodes(msgs: seq<Message>, t: ContainerTable, first: int, ghost f: Forest)
    returns (nodes: NodeTable, root: int, ghost g: Forest)
    requires t.Sized() && Holds(t.cache, |msgs|) && Chain(t.child, t.sibling, first, f) && Distinct(f)
    requires Mothers(t.parent, NIL, f) && EachOnce(Held(t.cache, f), |msgs|)
             && forall x :: x in Ids(f) ==> 0 <= x < |t.cache|
    modifies t
    ensures fresh(nodes) && nodes.Sized() && Numbered(msgs, nodes.sc, nodes.num)
            && Chain(nodes.next, nodes.branch, root, g)
    ensures t.cache == old(t.cache) && Mirrors(t.cache, Pruned(t.cache, f, true), nodes.sc, g)
    ensures Distinct(g) && Tidy(nodes.sc, g) && Between(g, 0, |nodes.sc|) && ValidCache(nodes.sc, |msgs|)
    ensures EachOnce(Held(nodes.sc, g), |msgs|)
  {
    DummiesHaveMothers(t.cache, t.parent, NIL, f);
    var pruned := PruneDummy(t, first, f, NIL);
    ghost var p := Pruned(t.cache, f, true);
    nodes := new NodeTable();
    root, g := C2Node(t, pruned, nodes, msgs, p);
    PrunedTidy(t.cache, f);
    PrunedKeepsMessages(t.cache, f, true);
    MirrorsFacts(t.cache, p, nodes.sc, g);
    HeldIsMessages(t.cache, f);
    HeldIsMessages(nodes.sc, g);
  }

  ghost function Dates(msgs: seq<Message>): (d: seq<nat>)
    ensures |d| == |msgs|
  {
    seq(|msgs|, i requires 0 <= i < |msgs| => msgs[i].date)
  }

  /** A list of threads: every message of the mailbox once, dummies only at top level, each over at
      least two messages. */
  ghost predicate Threads(msgs: seq<Message>, nodes: NodeTable, root: int, g: Forest)
    reads nodes
  {
    && nodes.Sized() && Numbered(msgs, nodes.sc, nodes.num) && Chain(nodes.next, nodes.branch, root, g)
    && Distinct(g) && Tidy(nodes.sc, g) && Between(g, 0, |nodes.sc|)
    && EachOnce(Held(nodes.sc, g), |msgs|)
  }

  /** No list of such threads, nor of the children below them, is longer than the mailbox. */
  lemma ListsFit(msgs: seq<Message>, nodes: NodeTable, root: int, g: Forest)
    requires Threads(msgs, nodes, root, g)
    ensures |MessagesIn(nodes.sc, g)| == |msgs| && |Tops(g)| <= |msgs|
  {
    HeldIsMessages(nodes.sc, g);
    EachOnceSize(Held(nodes.sc, g), |msgs|);
    TopsAreFew(nodes.sc, g);
  }

  method LoadDates(msgs: seq<Message>) returns (dates: seq<nat>)
    ensures dates == Dates(msgs)
  {
    dates := seq(|msgs|, i requires 0 <= i < |msgs| => msgs[i].date);
  }

  /** Step 4: sort the top level by date. */
  method SortTop(msgs: seq<Message>, nodes: NodeTable, tc: array<int>, root: int, dates: seq<nat>, ghost g: Forest)
    returns (root': int, ghost g': Forest)
    requires Threads(msgs, nodes, root, g) && tc.Length == |msgs|
    modifies tc, nodes`branch
    ensures Threads(msgs, nodes, root', g') && g' == Arranged(Tops(g'), g) && SameFamilies(g, g')
    ensures TopsSorted(nodes.sc, dates, g')
  {
    ListsFit(msgs, nodes, root, g);
    root', g' := SortLevel(nodes, tc, root, dates, g);
    KeysAreDates(nodes.sc, nodes.next, nodes.branch, dates, root', g');
    ArrangedFamilies(Tops(g'), g);
    TidyFamilies(nodes.sc, g, g');
    HeldByIds(nodes.sc, g, g');
  }

  /** Step 5: merge by subject, the hash table now serving as the subject table. */
  method MergeTop(msgs: seq<Message>, nodes: NodeTable, ht: HashTab, root: int, ghost g: Forest)
    returns (root': int, ghost r: MergeState)
    requires Threads(msgs, nodes, root, g) && ht.Valid() && {ht, ht.table} !! {nodes}
    modifies nodes, ht, ht.table
    ensures Threads(msgs, nodes, root', r.done) && r.sc == nodes.sc
    ensures exists m ::
              FiledBest(Roots(msgs, old(nodes.sc), g), m) && r == MergeAll(msgs, MergeState(Nil, g, m, old(nodes.sc)))
    ensures SubjectsDiffer(Roots(msgs, r.sc, r.done))
  {
    ht.Reset();
    root', r := MergeSubjects(nodes, ht, root, msgs, g);
    AppendNil(r.done);
  }

  /** Step 6: sort every sister list by date. */
  method SortAll(msgs: seq<Message>, nodes: NodeTable, tc: array<int>, root: int, dates: seq<nat>, ghost g: Forest)
    returns (root': int, ghost g': Forest)
    requires Threads(msgs, nodes, root, g) && tc.Length == |msgs|
    modifies tc, nodes`branch, nodes`next
    ensures Threads(msgs, nodes, root', g') && SameFamilies(g, g') && DateSorted(nodes.sc, dates, g')
  {
    ListsFit(msgs, nodes, root, g);
    root', g' := MailThreadSort(nodes, tc, root, dates, g);
    TidyFamilies(nodes.sc, g, g');
    HeldByIds(nodes.sc, g, g');
  }

  /** Whatever step 1 put below a message is below it in the end. */
  ghost predicate ReferencesStand(sc: seq<int>, v: Forest, finished: Forest, count: nat) {
    forall m, n :: 0 <= m < count && 0 <= n < count && n in Ids(KidsOf(v, m)) ==> MessageAbove(sc, finished, m, n)
  }

  lemma {:induction false} AllReferencesStand(msgs: seq<Message>, v: Forest, f: Forest, cache: seq<int>, sc: seq<int>,
                                              g: Forest, h: Forest, r: MergeState, finished: Forest)
    requires Holds(cache, |msgs|) && Reordered(f, v) && Mirrors(cache, Pruned(cache, f, true), sc, g)
    requires SameFamilies(g, h) && Tidy(sc, h) && Between(h, 0, |sc|) && ValidCache(sc, |msgs|)
    requires exists m :: FiledBest(Roots(msgs, sc, h), m) && r == MergeAll(msgs, MergeState(Nil, h, m, sc))
    requires SameFamilies(r.done, finished)
    ensures ReferencesStand(r.sc, v, finished, |msgs|)
  {
    var filed :| FiledBest(Roots(msgs, sc, h), filed) && r == MergeAll(msgs, MergeState(Nil, h, filed, sc));
    forall m, n | 0 <= m < |msgs| && 0 <= n < |msgs| && n in Ids(KidsOf(v, m))
      ensures MessageAbove(r.sc, finished, m, n)
    {
      ReferencesKept(msgs, v, f, cache, sc, g, h, filed, finished, m, n);
    }
  }

  /** And whatever is below a message in the end was put there by step 1 or by a reply that joined it. */
  ghost predicate AllHaveReasons(msgs: seq<Message>, sc: seq<int>, v: Forest, h: Forest, last: seq<int>,
                                 finished: Forest) {
    forall m, n :: MessageAbove(last, finished, m, n) ==> HasReason(msgs, sc, v, h, m, n)
  }

  lemma {:induction false} ReasonsForAll(msgs: seq<Message>, v: Forest, f: Forest, cache: seq<int>, sc: seq<int>,
                                         g: Forest, h: Forest, r: MergeState, finished: Forest)
    requires Holds(cache, |msgs|) && Reordered(f, v) && Mirrors(cache, Pruned(cache, f, true), sc, g)
    requires SameFamilies(g, h) && Tidy(sc, h) && Between(h, 0, |sc|) && ValidCache(sc, |msgs|)
    requires exists m :: FiledBest(Roots(msgs, sc, h), m) && r == MergeAll(msgs, MergeState(Nil, h, m, sc))
    requires SameFamilies(r.done, finished)
    ensures AllHaveReasons(msgs, sc, v, h, r.sc, finished)
  {
    hide MessageAbove, HasReason;
    var filed :| FiledBest(Roots(msgs, sc, h), filed) && r == MergeAll(msgs, MergeState(Nil, h, filed, sc));
    forall m, n | MessageAbove(r.sc, finished, m, n)
      ensures HasReason(msgs, sc, v, h, m, n)
    {
      AncestorsHaveReasons(msgs, v, f, cache, sc, g, h, filed, finished, m, n);
    }
  }

  lemma {:induction false} FinishedGathers(msgs: seq<Message>, sc: seq<int>, h: Forest, r: MergeState, finished: Forest)
    requires Distinct(h) && Tidy(sc, h) && Between(h, 0, |sc|) && ValidCache(sc, |msgs|)
    requires exists m :: FiledBest(Roots(msgs, sc, h), m) && r == MergeAll(msgs, MergeState(Nil, h, m, sc))
    requires SameFamilies(r.done, finished)
    ensures Gathered(msgs, sc, h, finished)
  {
    hide Gathered, Tidy, Distinct;
    var filed :| FiledBest(Roots(msgs, sc, h), filed) && r == MergeAll(msgs, MergeState(Nil, h, filed, sc));
    MergeStarts(msgs, sc, h, filed);
    MergeGathers(msgs, sc, h, filed, finished);
  }

  /** A message that was given another message for its mother in its own step is below it in the end. */
  ghost predicate LastReferencesStand(msgs: seq<Message>, sc: seq<int>, finished: Forest) {
    forall i :: 0 <= i < |msgs| && 0 <= OwnMother(msgs, i) < |msgs| ==>
      MessageAbove(sc, finished, OwnMother(msgs, i), i)
  }

  lemma {:induction false} MothersStand(msgs: seq<Message>, sc: seq<int>, v: Forest, finished: Forest)
    requires OwnMothersListed(msgs, v) && ReferencesStand(sc, v, finished, |msgs|)
    ensures LastReferencesStand(msgs, sc, finished)
  {
    forall i | 0 <= i < |msgs| && 0 <= OwnMother(msgs, i) < |msgs|
      ensures MessageAbove(sc, finished, OwnMother(msgs, i), i)
    {
      TopsAreIds(KidsOf(v, OwnMother(msgs, i)));
    }
  }

  /** A message that refers to another one by way of messages nobody has is below it in the end. */
  ghost predicate BridgesStand(msgs: seq<Message>, sc: seq<int>, finished: Forest) {
    forall i: nat, j: nat, k: nat :: Bridged(msgs, i, j, k) ==> MessageAbove(sc, finished, k, i)
  }

  lemma {:induction false} AllBridgesStand(msgs: seq<Message>, sc: seq<int>, v: Forest, finished: Forest)
    requires FallbacksFresh(msgs) && TellsMothers(v, MothersUpTo(msgs, |msgs|))
    requires ReferencesStand(sc, v, finished, |msgs|)
    ensures BridgesStand(msgs, sc, finished)
  {
    hide MothersUpTo, Climbs, MessageAbove, FallbacksFresh;
    forall i: nat, j: nat, k: nat | Bridged(msgs, i, j, k)
      ensures MessageAbove(sc, finished, k, i)
    {
      BridgeHolds(msgs, i, j, k);
    }
  }

  /** mail_thread_references. The ghost results name the trees between the steps:
      l  the links after step 1, f the container forest of step 2, g the nodes of step 3,
      h  the sorted top level of step 4, r the merge of step 5, and the finished tree. */
  method MailThreadReferences(msgs: seq<Message>)
    returns (root: int, nodes: NodeTable, ghost l: Links, ghost f: Forest, ghost cache: seq<int>, ghost sc: seq<int>,
             ghost g: Forest, ghost h: Forest, ghost r: MergeState, ghost finished: Forest)
    requires FallbacksFresh(msgs)
    ensures Threads(msgs, nodes, root, finished) && DateSorted(nodes.sc, Dates(msgs), finished)
    ensures l == ThreadedUpTo(msgs, |msgs|) && Reordered(f, l.forest) && Holds(cache, |msgs|)
    ensures Mirrors(cache, Pruned(cache, f, true), sc, g)
    ensures h == Arranged(Tops(h), g) && SameFamilies(g, h) && TopsSorted(sc, Dates(msgs), h)
    ensures exists m :: FiledBest(Roots(msgs, sc, h), m) && r == MergeAll(msgs, MergeState(Nil, h, m, sc))
    ensures SubjectsDiffer(Roots(msgs, r.sc, r.done))
    ensures nodes.sc == r.sc && SameFamilies(r.done, finished)
    ensures SortedForm(nodes.sc, Dates(msgs), r.done, finished)
    ensures SpeakersDiffer(msgs, r.sc, Dates(msgs), r.done) <==> StayApart(msgs, r.sc, Dates(msgs), r.done)
    ensures StayApart(msgs, r.sc, Dates(msgs), r.done) ==> SubjectsDiffer(Roots(msgs, nodes.sc, finished))
    ensures Gathered(msgs, sc, h, finished)
    ensures ReferencesStand(nodes.sc, l.forest, finished, |msgs|)
    ensures AllHaveReasons(msgs, sc, l.forest, h, nodes.sc, finished)
    ensures Files(l.names, UniqueNames(msgs)) && OwnMothersListed(msgs, l.forest)
    ensures TellsMothers(l.forest, MothersUpTo(msgs, |msgs|)) && BridgesStand(msgs, nodes.sc, finished)
    ensures LastReferencesStand(msgs, nodes.sc, finished)
  {
    hide FallbacksFresh, DateSorted, Reordered, Pruned, Mirrors, Arranged, SameFamilies, TopsSorted, SubjectsDiffer,
         Roots, MergeAll, FiledBest, ReferencesStand, Files, UniqueNames, OwnMothersListed, LastReferencesStand,
         ThreadedUpTo, SpeakersDiffer, StayApart, AllHaveReasons, TellsMothers,
         MothersUpTo, BridgesStand, Gathered, Tidy, Distinct, Between, EachOnce, Chain, Held, Ids;
    var ht := new HashTab(REFHASHSIZE);
    var t := new ContainerTable();
    var first;
    first, l, f := BuildForest(msgs, ht, t);
    cache := t.cache;
    nodes, root, g := BuildNodes(msgs, t, first, f);
    sc := nodes.sc;
    var tc := new int[|msgs|];
    var dates := LoadDates(msgs);
    root, h := SortTop(msgs, nodes, tc, root, dates, g);
    root, r := MergeTop(msgs, nodes, ht, root, h);
    SubjectsStayApartExactly(msgs, r.sc, dates, r.done);
    root, finished := SortAll(msgs, nodes, tc, root, dates, r.done);
    StayApartAfter(msgs, r.sc, dates, r.done, finished);
    AllReferencesStand(msgs, l.forest, f, cache, sc, g, h, r, finished);
    FinishedGathers(msgs, sc, h, r, finished);
    ReasonsForAll(msgs, l.forest, f, cache, sc, g, h, r, finished);
    MothersStand(msgs, nodes.sc, l.forest, finished);
    AllBridgesStand(msgs, nodes.sc, l.forest, finished);
  }
}
