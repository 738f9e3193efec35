/** What the references put above a message stays above it: no later step of REFERENCES threading takes a
    message out from under another one. */
module ThreadAncestry {
  import opened Arrange
  import opened Containers
  import opened Forests
  import opened Linking
  import opened MergeLinks
  import opened Messages
  import opened Prune
  import opened SubjectMerge
  import opened ThreadForest
  import opened ThreadNodes
  import opened ThreadSort

  /** Somewhere in f a node for message m has a node for message n below it. */
  ghost predicate MessageAbove(sc: seq<int>, f: Forest, m: int, n: int) {
    exists x, y :: Over(sc, f, m, n, x, y)
  }

  ghost predicate Over(sc: seq<int>, f: Forest, m: int, n: int, x: int, y: int) {
    IsMessage(sc, x) && IsMessage(sc, y) && sc[x] == m && sc[y] == n && Above(f, x, y)
  }

  // ----- from containers to nodes -----

  lemma {:induction false} MirrorOf(cache: seq<int>, f: Forest, sc: seq<int>, g: Forest, d: int) returns (y: int)
    requires Mirrors(cache, f, sc, g) && d in Ids(f)
    ensures y in Ids(g) && 0 <= d < |cache| && 0 <= y < |sc| && sc[y] == cache[d]
  {
    if d == f.id {
      y := g.id;
    } else if d in Ids(f.kids) {
      y := MirrorOf(cache, f.kids, sc, g.kids, d);
    } else {
      y := MirrorOf(cache, f.rest, sc, g.rest, d);
    }
  }

  /** The nodes mirror the containers' ancestry. */
  lemma {:induction false} MirrorsAbove(cache: seq<int>, f: Forest, sc: seq<int>, g: Forest, a: int, d: int)
    returns (x: int, y: int)
    requires Mirrors(cache, f, sc, g) && Above(f, a, d)
    ensures 0 <= a < |cache| && 0 <= x < |sc| && sc[x] == cache[a]
    ensures 0 <= d < |cache| && 0 <= y < |sc| && sc[y] == cache[d]
    ensures Above(g, x, y)
  {
    if a == f.id && d in Ids(f.kids) {
      x := g.id;
      y := MirrorOf(cache, f.kids, sc, g.kids, d);
    } else if Above(f.kids, a, d) {
      x, y := MirrorsAbove(cache, f.kids, sc, g.kids, a, d);
    } else {
      x, y := MirrorsAbove(cache, f.rest, sc, g.rest, a, d);
    }
  }

  // ----- sorting -----

  lemma FamiliesAbove(f: Forest, f': Forest, a: int, d: int)
    requires SameFamilies(f, f') && Above(f, a, d)
    ensures Above(f', a, d)
  {
    AboveIsBelow(f, a, d);
    AboveIsBelow(f', a, d);
    KidsIdsFamilies(f, f', a);
  }

  // ----- the subject merge -----

  /** More children for the top e: nothing leaves, and what comes keeps its own ancestry. */
  lemma {:induction false} MoreKidsAbove(f: Forest, e: int, z: Forest, a: int, d: int)
    requires Distinct(f) && e in Tops(f) && (Above(f, a, d) || Above(z, a, d))
    ensures Above(SetKids(f, e, Append(KidsOf(f, e), z)), a, d)
    decreases f
  {
    TopsAreIds(f.rest);
    var h := Append(KidsOf(f, e), z);
    if f.id == e {
      AppendFacts(f.kids, z);
      AboveAppend(f.kids, z, a, d);
    } else {
      SetKidsFacts(f.kids, e, h);
      if Above(f.rest, a, d) || Above(z, a, d) {
        MoreKidsAbove(f.rest, e, z, a, d);
      }
    }
  }

  /** Taking out the top e takes away only what is below e, and e itself. */
  lemma {:induction false} DetachAbove(f: Forest, e: int, a: int, d: int)
    requires Distinct(f) && e in Tops(f) && Above(f, a, d)
    ensures Above(Detach(f, e), a, d) || Above(Cons(e, KidsOf(f, e), Nil), a, d)
    decreases f
  {
    TopsAreIds(f.rest);
    if f.id != e {
      DetachFacts(f.kids, e);
      KidsOfLater(f, e);
      if Above(f.rest, a, d) {
        DetachAbove(f.rest, e, a, d);
      }
    }
  }

  lemma {:induction false} WholeAbove(s: MergeState, a: int, d: int)
    requires s.todo.Cons? && Above(Whole(s), a, d)
    ensures Above(Append(s.done, s.todo.rest), a, d) || Above(Cons(s.todo.id, s.todo.kids, Nil), a, d)
  {
    AboveAppend(s.done, s.todo, a, d);
    AboveAppend(s.done, s.todo.rest, a, d);
  }

  /** The current thread goes below e. */
  lemma {:induction false} AbsorbAbove(msgs: seq<Message>, s: MergeState, e: int, x: Forest, a: int, d: int)
    requires MergeOk(msgs, s) && s.todo.Cons? && e in Tops(Whole(s)) && e != s.todo.id
    requires x == (if IsMessage(s.sc, s.todo.id) then Cons(s.todo.id, s.todo.kids, Nil) else s.todo.kids)
    requires IsMessage(s.sc, a) && Above(Whole(s), a, d)
    ensures Above(Whole(Absorb(s, e, Append(KidsOf(Append(s.done, s.todo.rest), e), x))), a, d)
  {
    var w := Append(s.done, s.todo.rest);
    AbsorbForest(msgs, s, e, x);
    WholeAbove(s, a, d);
    MoreKidsAbove(w, e, x, a, d);
  }

  lemma {:induction false} PairedAbove(p: int, e: int, ke: Forest, cur: int, k: Forest, a: int, d: int)
    requires Above(Cons(e, ke, Nil), a, d) || Above(Cons(cur, k, Nil), a, d)
    ensures Above(Paired(p, e, ke, cur, k), a, d)
  {
    var pair := Cons(e, ke, Cons(cur, k, Nil));
    assert Above(pair, a, d);
    assert Paired(p, e, ke, cur, k) == Cons(p, pair, Nil);
  }

  /** The filed thread e and the current one go under a new dummy. */
  lemma {:induction false} PairAbove(s: MergeState, e: int, p: int, a: int, d: int)
    requires Distinct(Whole(s)) && s.todo.Cons? && e in Tops(s.done) && Above(Whole(s), a, d)
    ensures var pairing := Paired(p, e, KidsOf(s.done, e), s.todo.id, s.todo.kids);
            Above(Append(Append(Detach(s.done, e), pairing), s.todo.rest), a, d)
  {
    var pairing := Paired(p, e, KidsOf(s.done, e), s.todo.id, s.todo.kids);
    var rest := Detach(s.done, e);
    AppendFacts(s.done, s.todo);
    WholeAbove(s, a, d);
    AboveAppend(s.done, s.todo.rest, a, d);
    AboveAppend(Append(rest, pairing), s.todo.rest, a, d);
    AboveAppend(rest, pairing, a, d);
    if Above(s.done, a, d) {
      DetachAbove(s.done, e, a, d);
    }
    if Above(Cons(e, KidsOf(s.done, e), Nil), a, d) || Above(Cons(s.todo.id, s.todo.kids, Nil), a, d) {
      PairedAbove(p, e, KidsOf(s.done, e), s.todo.id, s.todo.kids, a, d);
    }
  }

  /** A step of the merge leaves every message above what it was above. */
  lemma {:induction false} MergeStepAbove(msgs: seq<Message>, s: MergeState, a: int, d: int)
    requires MergeOk(msgs, s) && s.todo.Cons? && IsMessage(s.sc, a) && Above(Whole(s), a, d)
    ensures Above(Whole(MergeStep(msgs, s)), a, d)
  {
    var me := RootOf(msgs, s.sc, s.todo.id, s.todo.kids);
    var one := Cons(s.todo.id, s.todo.kids, Nil);
    if me.subject == "" || me.subject !in s.subjects || s.subjects[me.subject] == s.todo.id {
      AboveAppend(Append(s.done, one), s.todo.rest, a, d);
      AboveAppend(s.done, one, a, d);
      AboveAppend(s.done, s.todo.rest, a, d);
      WholeAbove(s, a, d);
    } else {
      var e := s.subjects[me.subject];
      var ke := KidsOf(Append(s.done, s.todo.rest), e);
      FiledIsTop(msgs, s, me.subject);
      if !IsMessage(s.sc, e) || (me.refwd && !RootOf(msgs, s.sc, e, ke).refwd) {
        MergeStepAbsorbs(msgs, s, a, d);
      } else {
        FiledIsPassed(msgs, s, e, ke);
        FreshForest(s, e);
        PairAbove(s, e, |s.sc|, a, d);
      }
    }
  }

  lemma {:induction false} MergeStepAbsorbs(msgs: seq<Message>, s: MergeState, a: int, d: int)
    requires MergeOk(msgs, s) && s.todo.Cons? && IsMessage(s.sc, a) && Above(Whole(s), a, d)
    requires var me := RootOf(msgs, s.sc, s.todo.id, s.todo.kids);
             && me.subject != "" && me.subject in s.subjects && s.subjects[me.subject] != s.todo.id
             && var e := s.subjects[me.subject];
                || !IsMessage(s.sc, e)
                || (me.refwd && !RootOf(msgs, s.sc, e, KidsOf(Append(s.done, s.todo.rest), e)).refwd)
    ensures Above(Whole(MergeStep(msgs, s)), a, d)
  {
    var me := RootOf(msgs, s.sc, s.todo.id, s.todo.kids);
    var e := s.subjects[me.subject];
    FiledIsTop(msgs, s, me.subject);
    var x := if IsMessage(s.sc, s.todo.id) then Cons(s.todo.id, s.todo.kids, Nil) else s.todo.kids;
    AbsorbAbove(msgs, s, e, x, a, d);
    if IsMessage(s.sc, e) {
      assert Roots(msgs, s.sc, s.todo)[0] in Roots(msgs, s.sc, s.todo);
    }
  }

  lemma {:induction false} MergeAllAbove(msgs: seq<Message>, s: MergeState, a: int, d: int)
    requires MergeOk(msgs, s) && IsMessage(s.sc, a) && Above(Whole(s), a, d)
    ensures Above(Whole(MergeAll(msgs, s)), a, d) && s.sc <= MergeAll(msgs, s).sc
    decreases |Tops(s.todo)|
  {
    if s.todo.Cons? {
      MergeStepShorter(msgs, s);
      MergeStepKeeps(msgs, s);
      MergeStepAbove(msgs, s, a, d);
      MergeAllAbove(msgs, MergeStep(msgs, s), a, d);
    }
  }

  // ----- all the steps -----

  /** Steps 2 and 3: from the containers to the nodes. */
  lemma {:induction false} NodesKeep(v: Forest, f: Forest, cache: seq<int>, sc: seq<int>, g: Forest, m: int, n: int,
                                     count: nat)
    returns (x: int, y: int)
    requires Holds(cache, count) && 0 <= m < count && 0 <= n < count && n in Ids(KidsOf(v, m))
    requires Reordered(f, v) && Mirrors(cache, Pruned(cache, f, true), sc, g)
    ensures Over(sc, g, m, n, x, y)
  {
    AboveIsBelow(f, m, n);
    PrunedKeepsAncestors(cache, f, true, m, n);
    x, y := MirrorsAbove(cache, Pruned(cache, f, true), sc, g, m, n);
  }

  lemma {:induction false} MergeStarts(msgs: seq<Message>, sc: seq<int>, h: Forest, filed: map<string, int>)
    requires Distinct(h) && Tidy(sc, h) && Between(h, 0, |sc|) && ValidCache(sc, |msgs|)
    requires FiledBest(Roots(msgs, sc, h), filed)
    ensures MergeOk(msgs, MergeState(Nil, h, filed, sc))
  {
    RootsDiffer(msgs, sc, h);
    FiledIsOk(Roots(msgs, sc, h), filed, sc);
  }

  /** If step 1 left message n below message m, it is below it in the finished tree: v is the forest of
      step 1, f that of step 2, g the nodes of step 3, h those of step 4, r the merge of step 5. */
  lemma {:induction false} ReferencesKept(msgs: seq<Message>, v: Forest, f: Forest, cache: seq<int>, sc: seq<int>,
                                          g: Forest, h: Forest, filed: map<string, int>, finished: Forest,
                                          m: int, n: int)
    requires Holds(cache, |msgs|) && 0 <= m < |msgs| && 0 <= n < |msgs| && n in Ids(KidsOf(v, m))
    requires Reordered(f, v) && Mirrors(cache, Pruned(cache, f, true), sc, g) && SameFamilies(g, h)
    requires Tidy(sc, h) && Between(h, 0, |sc|) && ValidCache(sc, |msgs|) && FiledBest(Roots(msgs, sc, h), filed)
    requires SameFamilies(MergeAll(msgs, MergeState(Nil, h, filed, sc)).done, finished)
    ensures MessageAbove(MergeAll(msgs, MergeState(Nil, h, filed, sc)).sc, finished, m, n)
  {
    var s := MergeState(Nil, h, filed, sc);
    var r := MergeAll(msgs, s);
    var x, y := NodesKeep(v, f, cache, sc, g, m, n, |msgs|);
    FamiliesAbove(g, h, x, y);
    MergeStarts(msgs, sc, h, filed);
    MergeAllAbove(msgs, s, x, y);
    AppendNil(r.done);
    FamiliesAbove(r.done, finished, x, y);
    assert Over(r.sc, finished, m, n, x, y);
  }
}
