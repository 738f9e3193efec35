/** Why a message is above another one in the finished tree: the references put it there, or the merge by subject
    put a reply under it. */
module AncestryOrigins {
  import opened Arrange
  import opened Containers
  import opened Forests
  import opened Linking
  import opened Messages
  import opened Prune
  import opened SubjectMerge
  import opened ThreadAncestry
  import opened ThreadForest
  import opened ThreadNodes
  import opened ThreadSort

  // ----- back through one step of the merge -----

  lemma {:induction false} MoreKidsBelow(f: Forest, e: int, z: Forest, a: int, d: int)
    requires Distinct(f) && e in Tops(f) && Above(SetKids(f, e, Append(KidsOf(f, e), z)), a, d)
    ensures Above(f, a, d) || Above(z, a, d) || (a == e && d in Ids(z))
    decreases f
  {
    TopsAreIds(f.rest);
    var h := Append(KidsOf(f, e), z);
    if f.id == e {
      SetKidsFacts(f.rest, e, h);
      AppendFacts(f.kids, z);
      AboveAppend(f.kids, z, a, d);
    } else {
      SetKidsFacts(f.kids, e, h);
      SetKidsFacts(f.rest, e, h);
      if Above(SetKids(f.rest, e, h), a, d) {
        MoreKidsBelow(f.rest, e, z, a, d);
      }
    }
  }

  lemma {:induction false} DetachBelow(f: Forest, e: int, a: int, d: int)
    requires Distinct(f) && e in Tops(f) && Above(Detach(f, e), a, d)
    ensures Above(f, a, d)
    decreases f
  {
    TopsAreIds(f.rest);
    if f.id != e {
      DetachFacts(f.kids, e);
      if Above(Detach(f.rest, e), a, d) {
        DetachBelow(f.rest, e, a, d);
      }
    }
  }

  lemma {:induction false} ThreadAbove(f: Forest, e: int, a: int, d: int)
    requires Distinct(f) && e in Tops(f) && Above(Cons(e, KidsOf(f, e), Nil), a, d)
    ensures Above(f, a, d)
    decreases f
  {
    TopsAreIds(f.rest);
    if f.id != e {
      KidsOfLater(f, e);
      ThreadAbove(f.rest, e, a, d);
    }
  }

  lemma {:induction false} PartsAbove(s: MergeState, a: int, d: int)
    requires s.todo.Cons?
    ensures Above(Append(s.done, s.todo.rest), a, d) || Above(Cons(s.todo.id, s.todo.kids, Nil), a, d)
            ==> Above(Whole(s), a, d)
  {
    AboveAppend(s.done, s.todo, a, d);
    AboveAppend(s.done, s.todo.rest, a, d);
    AboveOne(s.todo.id, s.todo.kids, a, d);
  }

  lemma AboveOne(id: int, k: Forest, a: int, d: int)
    ensures Above(Cons(id, k, Nil), a, d) <==> (a == id && d in Ids(k)) || Above(k, a, d)
  {
    assert !Above(Nil, a, d);
  }

  lemma {:induction false} PairBelow(s: MergeState, e: int, p: int, a: int, d: int)
    requires Distinct(Whole(s)) && s.todo.Cons? && e in Tops(s.done) && a != p
    requires var pairing := Paired(p, e, KidsOf(s.done, e), s.todo.id, s.todo.kids);
             Above(Append(Append(Detach(s.done, e), pairing), s.todo.rest), a, d)
    ensures Above(Whole(s), a, d)
  {
    var (ke, one) := (KidsOf(s.done, e), Cons(s.todo.id, s.todo.kids, Nil));
    var pairing := Paired(p, e, ke, s.todo.id, s.todo.kids);
    var rest := Detach(s.done, e);
    AppendFacts(s.done, s.todo);
    AboveAppend(Append(rest, pairing), s.todo.rest, a, d);
    AboveAppend(rest, pairing, a, d);
    AboveAppend(s.done, s.todo, a, d);
    if Above(rest, a, d) {
      DetachBelow(s.done, e, a, d);
    } else if Above(pairing, a, d) {
      AboveOne(p, Cons(e, ke, one), a, d);
      AboveOne(e, ke, a, d);
      AboveOne(s.todo.id, s.todo.kids, a, d);
      assert Above(s.todo, a, d) || Above(Cons(e, ke, Nil), a, d);
      if Above(Cons(e, ke, Nil), a, d) {
        ThreadAbove(s.done, e, a, d);
      }
    }
  }

  // ----- who joined whom -----

  /** Message l is a reply to the subject of message m, which is none. */
  ghost predicate RepliesTo(msgs: seq<Message>, l: int, m: int) {
    && 0 <= l < |msgs| && 0 <= m < |msgs|
    && msgs[l].refwd && !msgs[m].refwd && msgs[l].subject == msgs[m].subject != ""
  }

  /** d is the reply x, or below it, and both x and a are threads of h. */
  ghost predicate JoinsBy(msgs: seq<Message>, sc: seq<int>, h: Forest, a: int, d: int, x: int) {
    && a in Tops(h) && x in Tops(h) && IsMessage(sc, a) && IsMessage(sc, x)
    && RepliesTo(msgs, sc[x], sc[a]) && (d == x || Above(h, x, d))
  }

  ghost predicate Joins(msgs: seq<Message>, sc: seq<int>, h: Forest, a: int, d: int) {
    exists x :: JoinsBy(msgs, sc, h, a, d, x)
  }

  /** A filed message has the subject it is filed under. */
  lemma {:induction false} FiledSubject(msgs: seq<Message>, s: MergeState, t: string)
    requires MergeOk(msgs, s) && t in s.subjects && IsMessage(s.sc, s.subjects[t])
    ensures 0 <= s.sc[s.subjects[t]] < |msgs| && msgs[s.sc[s.subjects[t]]].subject == t
  {
    var (d, tt) := (Roots(msgs, s.sc, s.done), Roots(msgs, s.sc, s.todo));
    var x: Root :| x in d + tt && x.id == s.subjects[t] && x.subject == t;
    if x in d {
      RootFields(msgs, s.sc, s.done, x, Nil);
    } else {
      RootFields(msgs, s.sc, s.todo, x, Nil);
    }
  }

  /** Every step of the merge leaves a message below those it was below, or puts it, with a reply, below the message
      filed under the subject. */
  lemma {:induction false} MergeStepBelow(msgs: seq<Message>, s: MergeState, a: int, d: int)
    requires MergeOk(msgs, s) && s.todo.Cons? && IsMessage(MergeStep(msgs, s).sc, a)
    requires Above(Whole(MergeStep(msgs, s)), a, d)
    ensures Above(Whole(s), a, d) || JoinsBy(msgs, s.sc, Whole(s), a, d, s.todo.id)
  {
    var me := RootOf(msgs, s.sc, s.todo.id, s.todo.kids);
    var one := Cons(s.todo.id, s.todo.kids, Nil);
    if me.subject == "" || me.subject !in s.subjects || s.subjects[me.subject] == s.todo.id {
      AppendAssoc(s.done, one, s.todo.rest);
      assert Append(one, s.todo.rest) == s.todo;
    } else {
      var e := s.subjects[me.subject];
      var ke := KidsOf(Append(s.done, s.todo.rest), e);
      FiledIsTop(msgs, s, me.subject);
      if !IsMessage(s.sc, e) || (me.refwd && !RootOf(msgs, s.sc, e, ke).refwd) {
        AbsorbBelow(msgs, s, a, d);
      } else {
        FiledIsPassed(msgs, s, e, ke);
        FreshForest(s, e);
        PairBelow(s, e, |s.sc|, a, d);
      }
    }
  }

  lemma {:induction false} AbsorbBelow(msgs: seq<Message>, s: MergeState, a: int, d: int)
    requires MergeOk(msgs, s) && s.todo.Cons? && IsMessage(s.sc, a) && Above(Whole(MergeStep(msgs, s)), a, d)
    requires var me := RootOf(msgs, s.sc, s.todo.id, s.todo.kids);
             && me.subject != "" && me.subject in s.subjects && s.subjects[me.subject] != s.todo.id
             && var e := s.subjects[me.subject];
                || !IsMessage(s.sc, e)
                || (me.refwd && !RootOf(msgs, s.sc, e, KidsOf(Append(s.done, s.todo.rest), e)).refwd)
    ensures Above(Whole(s), a, d) || JoinsBy(msgs, s.sc, Whole(s), a, d, s.todo.id)
  {
    hide Tidy, KidsOf, SetKids, Distinct, Between;
    var me := RootOf(msgs, s.sc, s.todo.id, s.todo.kids);
    var e := s.subjects[me.subject];
    var w := Append(s.done, s.todo.rest);
    FiledIsTop(msgs, s, me.subject);
    var x := if IsMessage(s.sc, s.todo.id) then Cons(s.todo.id, s.todo.kids, Nil) else s.todo.kids;
    if IsMessage(s.sc, e) {
      assert Roots(msgs, s.sc, s.todo)[0] in Roots(msgs, s.sc, s.todo);
    }
    AbsorbForest(msgs, s, e, x);
    MoreKidsBelow(w, e, x, a, d);
    PartsAbove(s, a, d);
    if a == e && d in Ids(x) {
      FiledSubject(msgs, s, me.subject);
      TopsAppend(s.done, s.todo);
      AboveAppend(s.done, s.todo, s.todo.id, d);
    }
  }

  // ----- back through the whole merge -----

  /** What is said of a state s of the merge that started from h. */
  ghost predicate Explained(msgs: seq<Message>, sc: seq<int>, h: Forest, s: MergeState) {
    && sc <= s.sc && (forall x :: |sc| <= x < |s.sc| ==> s.sc[x] == NIL)
    && (forall x :: x in Tops(Whole(s)) && IsMessage(s.sc, x) ==> x in Tops(h))
    && (forall a, d :: IsMessage(s.sc, a) && Above(Whole(s), a, d) ==> Above(h, a, d) || Joins(msgs, sc, h, a, d))
  }

  lemma {:induction false} DetachTops(f: Forest, e: int, x: int)
    requires Distinct(f) && e in Tops(f) && x in Tops(Detach(f, e))
    ensures x in Tops(f)
    decreases f
  {
    TopsAreIds(f.rest);
    if f.id != e && x != f.id {
      DetachTops(f.rest, e, x);
    }
  }

  lemma {:induction false} AbsorbTops(s: MergeState, e: int, ke: Forest, x: int)
    requires s.todo.Cons? && x in Tops(Whole(Absorb(s, e, ke)))
    ensures x in Tops(Whole(s))
  {
    hide SetKids;
    TopsAppend(s.done, s.todo);
    TopsOfSetKids(s.done, e, ke);
    TopsOfSetKids(s.todo.rest, e, ke);
    TopsAppend(SetKids(s.done, e, ke), SetKids(s.todo.rest, e, ke));
  }

  lemma {:induction false} PairTops(s: MergeState, e: int, p: int, x: int)
    requires Distinct(s.done) && e in Tops(s.done) && s.todo.Cons? && x != p
    requires x in Tops(Append(Append(Detach(s.done, e), Paired(p, e, KidsOf(s.done, e), s.todo.id, s.todo.kids)),
                              s.todo.rest))
    ensures x in Tops(Whole(s))
  {
    hide Detach, Distinct;
    var pairing := Paired(p, e, KidsOf(s.done, e), s.todo.id, s.todo.kids);
    TopsAppend(s.done, s.todo);
    TopsAppend(Append(Detach(s.done, e), pairing), s.todo.rest);
    TopsAppend(Detach(s.done, e), pairing);
    assert Tops(pairing) == [p];
    if x in Tops(Detach(s.done, e)) {
      DetachTops(s.done, e, x);
    }
  }

  /** No message comes to the top. */
  lemma {:induction false} OldTops(msgs: seq<Message>, s: MergeState, x: int)
    requires MergeOk(msgs, s) && s.todo.Cons? && x in Tops(Whole(MergeStep(msgs, s)))
             && IsMessage(MergeStep(msgs, s).sc, x)
    ensures x in Tops(Whole(s))
  {
    hide TableOk, Tidy, Tops, Detach, SetKids, Distinct;
    var me := RootOf(msgs, s.sc, s.todo.id, s.todo.kids);
    var one := Cons(s.todo.id, s.todo.kids, Nil);
    var r := s.todo.rest;
    if me.subject == "" || me.subject !in s.subjects || s.subjects[me.subject] == s.todo.id {
      AppendAssoc(s.done, one, r);
      assert Append(one, r) == s.todo;
    } else {
      var e := s.subjects[me.subject];
      var ke := KidsOf(Append(s.done, r), e);
      if !IsMessage(s.sc, e) {
        AbsorbTops(s, e, Append(ke, if me.dummy then s.todo.kids else one), x);
      } else if me.refwd && !RootOf(msgs, s.sc, e, ke).refwd {
        AbsorbTops(s, e, Append(ke, one), x);
      } else {
        FiledIsPassed(msgs, s, e, ke);
        FreshForest(s, e);
        AppendFacts(s.done, s.todo);
        PairTops(s, e, |s.sc|, x);
      }
    }
  }

  lemma StepMessages(msgs: seq<Message>, s: MergeState)
    requires s.todo.Cons?
    ensures var sc' := MergeStep(msgs, s).sc; sc' == s.sc || sc' == s.sc + [NIL]
    ensures forall x :: IsMessage(MergeStep(msgs, s).sc, x) <==> IsMessage(s.sc, x)
  {
  }

  /** A reply that joins a thread was below the same messages from the start. */
  lemma {:induction false} StepExplained(msgs: seq<Message>, sc: seq<int>, h: Forest, s: MergeState, a: int, d: int)
    requires MergeOk(msgs, s) && s.todo.Cons? && Explained(msgs, sc, h, s)
    requires IsMessage(MergeStep(msgs, s).sc, a) && Above(Whole(MergeStep(msgs, s)), a, d)
    ensures Above(h, a, d) || Joins(msgs, sc, h, a, d)
  {
    hide MergeStep, MergeOk;
    MergeStepBelow(msgs, s, a, d);
    StepMessages(msgs, s);
    var x := s.todo.id;
    if JoinsBy(msgs, s.sc, Whole(s), a, d, x) {
      assert a in Tops(h) && x in Tops(h) && a < |sc| && x < |sc|;
      if d != x {
        assert Above(h, x, d) || Joins(msgs, sc, h, x, d);
      }
      assert JoinsBy(msgs, sc, h, a, d, x);
    }
  }

  lemma {:induction false} ExplainedNext(msgs: seq<Message>, sc: seq<int>, h: Forest, s: MergeState)
    requires MergeOk(msgs, s) && s.todo.Cons? && Explained(msgs, sc, h, s)
    ensures Explained(msgs, sc, h, MergeStep(msgs, s))
  {
    hide MergeStep, MergeOk, Above;
    var s' := MergeStep(msgs, s);
    StepMessages(msgs, s);
    forall x | x in Tops(Whole(s')) && IsMessage(s'.sc, x)
      ensures x in Tops(h)
    {
      OldTops(msgs, s, x);
    }
    forall a, d | IsMessage(s'.sc, a) && Above(Whole(s'), a, d)
      ensures Above(h, a, d) || Joins(msgs, sc, h, a, d)
    {
      StepExplained(msgs, sc, h, s, a, d);
    }
  }

  /** After the whole merge a message is above what it was above before, and above the replies that joined it. */
  lemma {:induction false} MergeAllExplained(msgs: seq<Message>, sc: seq<int>, h: Forest, s: MergeState)
    requires MergeOk(msgs, s) && Explained(msgs, sc, h, s)
    ensures Explained(msgs, sc, h, MergeAll(msgs, s))
    decreases |Tops(s.todo)|
  {
    hide Explained, MergeOk;
    if s.todo.Cons? {
      MergeStepShorter(msgs, s);
      MergeStepKeeps(msgs, s);
      ExplainedNext(msgs, sc, h, s);
      MergeAllExplained(msgs, sc, h, MergeStep(msgs, s));
    }
  }

  // ----- back to the references -----

  lemma {:induction false} MirroredOf(cache: seq<int>, f: Forest, sc: seq<int>, g: Forest, y: int) returns (d: int)
    requires Mirrors(cache, f, sc, g) && y in Ids(g)
    ensures d in Ids(f) && 0 <= d < |cache| && 0 <= y < |sc| && sc[y] == cache[d]
  {
    if y == g.id {
      d := f.id;
    } else if y in Ids(g.kids) {
      d := MirroredOf(cache, f.kids, sc, g.kids, y);
    } else {
      d := MirroredOf(cache, f.rest, sc, g.rest, y);
    }
  }

  /** The containers have the ancestry of their nodes. */
  lemma {:induction false} MirroredAbove(cache: seq<int>, f: Forest, sc: seq<int>, g: Forest, x: int, y: int)
    returns (a: int, d: int)
    requires Mirrors(cache, f, sc, g) && Above(g, x, y)
    ensures 0 <= a < |cache| && 0 <= x < |sc| && sc[x] == cache[a]
    ensures 0 <= d < |cache| && 0 <= y < |sc| && sc[y] == cache[d]
    ensures Above(f, a, d)
  {
    if x == g.id && y in Ids(g.kids) {
      a := f.id;
      d := MirroredOf(cache, f.kids, sc, g.kids, y);
    } else if Above(g.kids, x, y) {
      a, d := MirroredAbove(cache, f.kids, sc, g.kids, x, y);
    } else {
      a, d := MirroredAbove(cache, f.rest, sc, g.rest, x, y);
    }
  }

  /** Above each other before the merge, two messages were so in the forest of step 1. */
  lemma {:induction false} FromReferences(v: Forest, f: Forest, cache: seq<int>, sc: seq<int>, g: Forest, h: Forest,
                                          count: nat, x: int, y: int)
    requires Holds(cache, count) && Reordered(f, v) && Mirrors(cache, Pruned(cache, f, true), sc, g)
    requires SameFamilies(g, h) && Above(h, x, y) && IsMessage(sc, x) && IsMessage(sc, y)
    ensures sc[y] in Ids(KidsOf(v, sc[x]))
  {
    FamiliesAbove(h, g, x, y);
    var a, d := MirroredAbove(cache, Pruned(cache, f, true), sc, g, x, y);
    PrunedKeepsAncestors(cache, f, true, a, d);
    AboveIsBelow(f, a, d);
  }

  // ----- the finished tree -----

  /** Message m heads a thread of h. */
  ghost predicate Heads(sc: seq<int>, h: Forest, m: int) {
    exists x :: x in Tops(h) && IsMessage(sc, x) && sc[x] == m
  }

  /** Message n is, or follows by the references, a reply l to the subject of m; both head threads of h. */
  ghost predicate JoinedBy(msgs: seq<Message>, sc: seq<int>, v: Forest, h: Forest, m: int, n: int, l: int) {
    RepliesTo(msgs, l, m) && Heads(sc, h, m) && Heads(sc, h, l) && (n == l || n in Ids(KidsOf(v, l)))
  }

  /** The references put n below m, or a reply did. */
  ghost predicate HasReason(msgs: seq<Message>, sc: seq<int>, v: Forest, h: Forest, m: int, n: int) {
    n in Ids(KidsOf(v, m)) || exists l :: JoinedBy(msgs, sc, v, h, m, n, l)
  }

  lemma {:induction false} JoinIsReason(msgs: seq<Message>, v: Forest, f: Forest, cache: seq<int>, sc: seq<int>,
                                        g: Forest, h: Forest, x: int, y: int)
    requires Holds(cache, |msgs|) && Reordered(f, v) && Mirrors(cache, Pruned(cache, f, true), sc, g)
    requires SameFamilies(g, h) && Joins(msgs, sc, h, x, y) && IsMessage(sc, y)
    ensures IsMessage(sc, x) && HasReason(msgs, sc, v, h, sc[x], sc[y])
  {
    hide Above, Mirrors, SameFamilies, Reordered;
    var z :| JoinsBy(msgs, sc, h, x, y, z);
    if y != z {
      FromReferences(v, f, cache, sc, g, h, |msgs|, z, y);
    }
    assert JoinedBy(msgs, sc, v, h, sc[x], sc[y], sc[z]);
  }

  /** Every ancestor of a message in the finished tree has a reason: v is the forest of step 1, f that of step 2, g the
      nodes of step 3, h those of step 4. */
  lemma {:induction false} AncestorsHaveReasons(msgs: seq<Message>, v: Forest, f: Forest, cache: seq<int>, sc: seq<int>,
                                                g: Forest, h: Forest, filed: map<string, int>, finished: Forest,
                                                m: int, n: int)
    requires Holds(cache, |msgs|) && Reordered(f, v) && Mirrors(cache, Pruned(cache, f, true), sc, g)
             && SameFamilies(g, h)
    requires Tidy(sc, h) && Between(h, 0, |sc|) && ValidCache(sc, |msgs|) && FiledBest(Roots(msgs, sc, h), filed)
    requires SameFamilies(MergeAll(msgs, MergeState(Nil, h, filed, sc)).done, finished)
    requires MessageAbove(MergeAll(msgs, MergeState(Nil, h, filed, sc)).sc, finished, m, n)
    ensures HasReason(msgs, sc, v, h, m, n)
  {
    hide Above, Mirrors, Reordered, Tidy, MergeAll, Holds, HasReason, Joins;
    var s := MergeState(Nil, h, filed, sc);
    var r := MergeAll(msgs, s);
    var x, y :| Over(r.sc, finished, m, n, x, y);
    FamiliesAbove(finished, r.done, x, y);
    MergeStarts(msgs, sc, h, filed);
    MergeAllExplained(msgs, sc, h, s);
    AppendNil(r.done);
    if Above(h, x, y) {
      FromReferences(v, f, cache, sc, g, h, |msgs|, x, y);
      ReferenceIsReason(msgs, sc, v, h, m, n);
    } else {
      JoinIsReason(msgs, v, f, cache, sc, g, h, x, y);
    }
  }

  lemma ReferenceIsReason(msgs: seq<Message>, sc: seq<int>, v: Forest, h: Forest, m: int, n: int)
    requires n in Ids(KidsOf(v, m))
    ensures HasReason(msgs, sc, v, h, m, n)
  {
  }
}
