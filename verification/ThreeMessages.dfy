/** Three messages whose threads, after the final sort, have one subject twice. */
module ThreeMessages {
  import opened Arrange
  import opened Containers
  import opened FinalSubjects
  import opened Forests
  import opened Linking
  import MergeLinks
  import opened Messages
  import opened Options
  import opened Prune
  import opened ReferenceLinks
  import opened SubjectMerge
  import opened ThreadForest
  import opened ThreadNodes
  import opened ThreadSort
  import opened Threading

  function Mail(id: string, refs: seq<string>, subject: string, date: nat): Message {
    Message(Some(id), "fallback " + id, refs, subject, false, date, 0)
  }

  /** Two replies to a message nobody has, the second one dated earlier, and a message with its subject. */
  const THREE := [Mail("p", ["x"], "A", 5), Mail("q", ["x"], "B", 1), Mail("r", [], "B", 9)]

  lemma ThreeFresh()
    ensures FallbacksFresh(THREE)
  {
    assert THREE[0].fallback[9] == 'p' && THREE[1].fallback[9] == 'q' && THREE[2].fallback[9] == 'r';
    assert forall i :: 0 <= i < 3 ==> |THREE[i].fallback| == 10 && |THREE[i].messageId.value| == 1;
  }

  // ----- step 1 -----

  lemma {:induction false} ThreeNames()
    ensures UniqueNames(THREE) == ["p", "q", "r"]
  {
    assert THREE[..2][..1] == [THREE[0]] && THREE[..2][1] == THREE[1] && [THREE[0]][..0] == [];
    assert UniqueNames([THREE[0]]) == ["p"];
    assert UniqueNames(THREE[..2]) == ["p", "q"];
  }

  const LEAF := Cons(2, Nil, Nil)
  const PAIR := Cons(0, Nil, Cons(1, Nil, Nil))
  const NAMES := map["p" := 0, "q" := 1, "r" := 2]
  const FIRST := Links(NAMES, 3, Cons(2, Nil, Cons(1, Nil, Cons(0, Nil, Nil))))

  lemma {:induction false} ThreeRegistered()
    ensures Registered(["p", "q", "r"]) == FIRST
  {
    assert ["p"][..0] == [] && ["p", "q"][..1] == ["p"] && ["p", "q", "r"][..2] == ["p", "q"];
    assert Registered(["p"]) == Links(map["p" := 0], 1, Cons(0, Nil, Nil));
    assert Registered(["p", "q"]) == Links(map["p" := 0, "q" := 1], 2, Cons(1, Nil, Cons(0, Nil, Nil)));
  }

  lemma {:induction false} OneReference(l: Links)
    ensures Followed(l, ["x"]) == Named(l, "x")
    ensures LastReference(Followed(l, ["x"]), ["x"]) == Named(l, "x").names["x"]
  {
    assert ["x"][..0] == [];
    assert Followed(l, []) == l;
  }

  const SECOND := Links(NAMES["x" := 3], 4, Cons(3, Cons(0, Nil, Nil), Cons(2, Nil, Cons(1, Nil, Nil))))
  const THIRD := Links(NAMES["x" := 3], 4, Cons(3, PAIR, LEAF))

  lemma {:induction false} StepOne()
    ensures Threaded(FIRST, 0, ["x"]) == SECOND
  {
    OneReference(FIRST);
    var v := Cons(3, Nil, FIRST.forest);
    assert Named(FIRST, "x") == Links(NAMES["x" := 3], 4, v);
    assert Tops(v) == [3, 2, 1, 0];
    assert Detach(v, 0) == Cons(3, Nil, Cons(2, Nil, Cons(1, Nil, Nil)));
    assert KidsOf(v, 0) == Nil;
    assert ReferenceLinks.Youngest(v, 3, 0) == SECOND.forest;
  }

  lemma {:induction false} StepTwo()
    ensures Threaded(SECOND, 1, ["x"]) == THIRD
  {
    OneReference(SECOND);
    var v := SECOND.forest;
    assert Named(SECOND, "x") == SECOND;
    assert Tops(v) == [3, 2, 1];
    assert Detach(v, 1) == Cons(3, Cons(0, Nil, Nil), LEAF);
    assert KidsOf(v, 1) == Nil;
    assert ReferenceLinks.Youngest(v, 3, 1) == THIRD.forest;
  }

  /** Step 1 puts p and q under the missing message and leaves r alone. */
  lemma {:induction false} ThreeThreaded()
    ensures ThreadedUpTo(THREE, 3) == THIRD
  {
    hide Threaded;
    ThreeNames();
    ThreeRegistered();
    StepOne();
    StepTwo();
    StepThree();
    assert ThreadedUpTo(THREE, 0) == FIRST;
    assert ThreadedUpTo(THREE, 1) == SECOND;
    assert ThreadedUpTo(THREE, 2) == THIRD;
  }

  lemma {:induction false} StepThree()
    ensures Threaded(THIRD, 2, []) == THIRD
  {
    assert Tops(THIRD.forest) == [3, 2];
  }

  // ----- steps 2 to 4 -----

  /** A dummy over p and q, and r. */
  ghost predicate IsThree(sc: seq<int>, dummy: Forest, other: Forest) {
    && dummy.Cons? && dummy.kids.Cons? && dummy.kids.rest.Cons? && dummy.kids.rest.rest == Nil && other.Cons?
    && dummy.kids.kids == dummy.kids.rest.kids == other.kids == Nil
    && !IsMessage(sc, dummy.id)
    && Shows(sc, dummy.kids.id, 0) && Shows(sc, dummy.kids.rest.id, 1) && Shows(sc, other.id, 2)
  }

  ghost predicate Shows(sc: seq<int>, x: int, m: int) {
    0 <= x < |sc| && sc[x] == m
  }

  /** The two trees in either order. */
  ghost predicate EitherOrder(sc: seq<int>, f: Forest) {
    && f.Cons? && f.rest.Cons? && f.rest.rest == Nil
    && (IsThree(sc, f, f.rest) || IsThree(sc, f.rest, f))
  }

  /** A forest with two given roots. */
  lemma {:induction false} TwoTrees(f: Forest, a: int, b: int)
    requires Distinct(f) && a != b && forall x :: x in Tops(f) <==> x == a || x == b
    ensures f.Cons? && f.rest.Cons? && f.rest.rest == Nil && {f.id, f.rest.id} == {a, b} && f.id != f.rest.id
    ensures KidsOf(f, f.id) == f.kids && KidsOf(f, f.rest.id) == f.rest.kids
  {
    assert a in Tops(f) && b in Tops(f);
    assert f.id in Tops(f);
    var g := f.rest;
    assert a in Tops(g) || b in Tops(g);
    TopsAreIds(g);
    assert g.id in Tops(g) && g.id in Tops(f);
    LastOfSeveral(g);
    assert Last(g) in Tops(f);
  }

  lemma {:induction false} LastOfSeveral(g: Forest)
    requires g.Cons? && Distinct(g)
    ensures Last(g) in Tops(g) && (g.rest.Cons? ==> Last(g) != g.id)
  {
    MergeLinks.LastIsTop(g);
    if g.rest.Cons? {
      LastInIds(g.rest);
    }
  }

  lemma {:induction false} TwoListed(f: Forest)
    requires f.Cons? && f.rest.Cons? && f.rest.rest == Nil
    ensures Tops(f) == [f.id, f.rest.id]
  {
    assert Tops(f.rest) == [f.rest.id];
  }

  lemma {:induction false} TwoRoots(f: Forest)
    requires Reordered(f, THIRD.forest)
    ensures f == Cons(3, PAIR, LEAF) || f == Cons(2, Nil, Cons(3, PAIR, Nil))
  {
    assert Tops(THIRD.forest) == [3, 2];
    assert KidsOf(THIRD.forest, 3) == PAIR && KidsOf(THIRD.forest, 2) == Nil;
    TwoTrees(f, 2, 3);
  }

  lemma {:induction false} ThreePruned(f: Forest, cache: seq<int>, sc: seq<int>, g: Forest)
    requires Reordered(f, THIRD.forest) && Holds(cache, 3) && Mirrors(cache, Pruned(cache, f, true), sc, g)
    ensures EitherOrder(sc, g)
  {
    TwoRoots(f);
    assert Pruned(cache, PAIR.rest, false) == PAIR.rest;
    assert Pruned(cache, PAIR, false) == PAIR;
    assert Pruned(cache, LEAF, true) == LEAF;
    assert Mirrors(cache, f.rest, sc, g.rest) && Mirrors(cache, f.rest.rest, sc, g.rest.rest) by {
      assert Pruned(cache, f, true) == f;
    }
    if f.id == 3 {
      ThreeMirrored(cache, f, f.rest, sc, g, g.rest);
    } else {
      ThreeMirrored(cache, f.rest, f, sc, g.rest, g);
    }
  }

  lemma {:induction false} ThreeMirrored(cache: seq<int>, f1: Forest, f2: Forest, sc: seq<int>, g1: Forest, g2: Forest)
    requires f1.Cons? && f2.Cons? && Mirrors(cache, f1, sc, g1) && Mirrors(cache, f2, sc, g2) && Holds(cache, 3)
    requires f1.id == 3 && f1.kids == PAIR && f2.id == 2 && f2.kids == Nil
    ensures IsThree(sc, g1, g2)
  {
    assert Mirrors(cache, PAIR, sc, g1.kids) && Mirrors(cache, PAIR.rest, sc, g1.kids.rest);
    assert Mirrors(cache, PAIR.kids, sc, g1.kids.kids) && Mirrors(cache, PAIR.rest.kids, sc, g1.kids.rest.kids);
    assert Mirrors(cache, PAIR.rest.rest, sc, g1.kids.rest.rest) && Mirrors(cache, f2.kids, sc, g2.kids);
  }

  /** Step 4 puts the dummy first. */
  lemma {:induction false} ThreeArranged(sc: seq<int>, g: Forest, h: Forest)
    requires EitherOrder(sc, g) && SameFamilies(g, h) && h == Arranged(Tops(h), g) && TopsSorted(sc, Dates(THREE), h)
    ensures EitherOrder(sc, h) && IsThree(sc, h, h.rest)
  {
    TwoListed(g);
    TwoTrees(g, g.id, g.rest.id);
    TwoTrees(h, g.id, g.rest.id);
    TwoListed(h);
    assert Tops(h)[1..] == [h.rest.id];
    assert h.kids == KidsOf(g, h.id) && h.rest.kids == KidsOf(g, h.rest.id);
  }

  // ----- steps 5 and 6 -----

  lemma {:induction false} ThreeMerged(sc: seq<int>, h: Forest, m: map<string, int>)
    requires EitherOrder(sc, h) && IsThree(sc, h, h.rest) && Distinct(h) && FiledBest(Roots(THREE, sc, h), m)
    ensures var r := MergeAll(THREE, MergeState(Nil, h, m, sc)); r.done == h && r.sc == sc
  {
    var (d, c) := (h.id, h.rest.id);
    var rs := Roots(THREE, sc, h);
    assert RootOf(THREE, sc, d, h.kids) == Root(d, true, "A", false);
    assert Roots(THREE, sc, h.rest) == [Root(c, false, "B", false)];
    assert rs == [Root(d, true, "A", false), Root(c, false, "B", false)];
    assert rs[0].subject in m && rs[1].subject in m;
    var p: nat :| Best(rs, p, "A") && rs[p].id == m["A"];
    var q: nat :| Best(rs, q, "B") && rs[q].id == m["B"];
    var s := MergeState(Nil, h, m, sc);
    var s1 := MergeState(Cons(d, h.kids, Nil), h.rest, m, sc);
    assert MergeStep(THREE, s) == s1;
    assert Append(s1.done, h.rest) == h && h.rest == Cons(c, Nil, Nil);
    assert MergeStep(THREE, s1) == MergeState(h, Nil, m, sc);
    assert MergeAll(THREE, s1) == MergeAll(THREE, MergeState(h, Nil, m, sc));
  }

  /** The sort puts q first below the dummy, which has the subject of r then. */
  lemma {:induction false} ThreeClash(sc: seq<int>, h: Forest, finished: Forest)
    requires EitherOrder(sc, h) && IsThree(sc, h, h.rest) && Distinct(h) && ValidCache(sc, 3)
    requires SortedForm(sc, Dates(THREE), h, finished)
    ensures !SubjectsDiffer(Roots(THREE, sc, finished))
  {
    var (d, c) := (h.id, h.rest.id);
    var k := h.kids;
    TwoListed(h);
    TwoListed(k);
    assert Tidy(sc, h.rest) && AllMessages(sc, k.rest);
    TwoTrees(h, d, c);
    SpeakerSpeaks(sc, Dates(THREE), h, finished, d);
    assert k.rest.id in Tops(k);
    assert Speaker(sc, finished, d) == k.rest.id;
    assert d in Tops(finished) && c in Tops(finished);
    OneSubjectTwice(THREE, sc, finished, d, c);
  }

  /** However ties are broken and names are hashed, the three messages end with two threads of one subject, though
      the merge left them with different ones. */
  method ThreadThree() returns (root: int, nodes: NodeTable, ghost r: MergeState, ghost finished: Forest)
    ensures Threads(THREE, nodes, root, finished) && nodes.sc == r.sc
    ensures SortedForm(nodes.sc, Dates(THREE), r.done, finished)
    ensures SubjectsDiffer(Roots(THREE, r.sc, r.done)) && !SubjectsDiffer(Roots(THREE, nodes.sc, finished))
  {
    ThreeFresh();
    ghost var l, f, cache, sc, g, h;
    root, nodes, l, f, cache, sc, g, h, r, finished := MailThreadReferences(THREE);
    ThreeThreaded();
    ThreePruned(f, cache, sc, g);
    ThreeArranged(sc, g, h);
    ghost var m :| FiledBest(Roots(THREE, sc, h), m) && r == MergeAll(THREE, MergeState(Nil, h, m, sc));
    ThreeMerged(sc, h, m);
    ThreeClash(sc, h, finished);
  }
}
