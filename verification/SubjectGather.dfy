/** What the merge by subject is for: the threads of one subject become one, and which of them leads it. */
module SubjectGather {
  import opened Containers
  import opened Forests
  import opened Linking
  import opened Messages
  import opened Prune
  import opened SubjectMerge
  import opened ThreadNodes
  import opened ThreadSort

  /** y is in the tree of f at x. */
  ghost predicate InTree(f: Forest, x: int, y: int) {
    match f
    case Nil => false
    case Cons(id, k, r) => (x == id && (y == id || y in Ids(k))) || InTree(r, x, y)
  }

  lemma {:induction false} InAppend(f: Forest, g: Forest, x: int, y: int)
    ensures InTree(Append(f, g), x, y) <==> InTree(f, x, y) || InTree(g, x, y)
  {
    if f.Cons? {
      InAppend(f.rest, g, x, y);
    }
  }

  lemma {:induction false} InTop(f: Forest, x: int, y: int)
    requires Distinct(f)
    ensures InTree(f, x, y) <==> x in Tops(f) && (y == x || y in Ids(KidsOf(f, x)))
    decreases f
  {
    if f.Cons? {
      TopsAreIds(f.rest);
      InTop(f.rest, x, y);
    }
  }

  lemma {:induction false} InMoreKids(f: Forest, e: int, z: Forest, x: int, y: int)
    requires Distinct(f) && e in Tops(f) && (InTree(f, x, y) || (x == e && y in Ids(z)))
    ensures InTree(SetKids(f, e, Append(KidsOf(f, e), z)), x, y)
    decreases f
  {
    TopsAreIds(f.rest);
    var h := Append(KidsOf(f, e), z);
    if f.id == e {
      AppendFacts(f.kids, z);
    } else {
      SetKidsFacts(f.kids, e, h);
      if InTree(f.rest, x, y) || x == e {
        InMoreKids(f.rest, e, z, x, y);
      }
    }
  }

  lemma {:induction false} InDetached(f: Forest, e: int, x: int, y: int)
    requires Distinct(f) && e in Tops(f) && x != e && InTree(f, x, y)
    ensures InTree(Detach(f, e), x, y)
    decreases f
  {
    TopsAreIds(f.rest);
    if f.id != e {
      DetachFacts(f.kids, e);
      if InTree(f.rest, x, y) {
        InDetached(f.rest, e, x, y);
      }
    }
  }

  // ----- one step -----

  /** What a step does with the current thread. */
  ghost predicate Stays(msgs: seq<Message>, s: MergeState)
    requires s.todo.Cons?
  {
    var t := RootOf(msgs, s.sc, s.todo.id, s.todo.kids).subject;
    t == "" || t !in s.subjects || s.subjects[t] == s.todo.id
  }

  ghost predicate Absorbed(msgs: seq<Message>, s: MergeState)
    requires s.todo.Cons? && !Stays(msgs, s)
  {
    var me := RootOf(msgs, s.sc, s.todo.id, s.todo.kids);
    var e := s.subjects[me.subject];
    !IsMessage(s.sc, e) || (me.refwd && !RootOf(msgs, s.sc, e, KidsOf(Append(s.done, s.todo.rest), e)).refwd)
  }

  /** The thread in which what is in thread x is after a step. */
  ghost function Into(msgs: seq<Message>, s: MergeState, x: int): int
    requires s.todo.Cons?
  {
    if Stays(msgs, s) then x
    else
      var e := s.subjects[RootOf(msgs, s.sc, s.todo.id, s.todo.kids).subject];
      if Absorbed(msgs, s) then if x == s.todo.id then e else x
      else if x == s.todo.id || x == e then |s.sc|
      else x
  }

  lemma {:induction false} StaysGathers(msgs: seq<Message>, s: MergeState)
    requires s.todo.Cons? && Stays(msgs, s)
    ensures Whole(MergeStep(msgs, s)) == Whole(s) && MergeStep(msgs, s).sc == s.sc
  {
    var one := Cons(s.todo.id, s.todo.kids, Nil);
    AppendAssoc(s.done, one, s.todo.rest);
    assert Append(one, s.todo.rest) == s.todo;
  }

  lemma {:induction false} TakenApart(s: MergeState, x: int, y: int)
    requires s.todo.Cons? && InTree(Whole(s), x, y)
    ensures InTree(Append(s.done, s.todo.rest), x, y) || (x == s.todo.id && (y == x || y in Ids(s.todo.kids)))
  {
    InAppend(s.done, s.todo, x, y);
    InAppend(s.done, s.todo.rest, x, y);
  }

  /** The step that absorbs the current thread: what comes under the filed one. */
  lemma {:induction false} AbsorbShape(msgs: seq<Message>, s: MergeState) returns (e: int, z: Forest)
    requires MergeOk(msgs, s) && s.todo.Cons? && !Stays(msgs, s) && Absorbed(msgs, s)
    ensures e == s.subjects[RootOf(msgs, s.sc, s.todo.id, s.todo.kids).subject] != s.todo.id
    ensures z == if IsMessage(s.sc, s.todo.id) then Cons(s.todo.id, s.todo.kids, Nil) else s.todo.kids
    ensures var w := Append(s.done, s.todo.rest);
            && Distinct(Whole(s)) && Distinct(w) && e in Tops(w)
            && Whole(MergeStep(msgs, s)) == SetKids(w, e, Append(KidsOf(w, e), z))
            && MergeStep(msgs, s).todo == SetKids(s.todo.rest, e, Append(KidsOf(w, e), z))
            && MergeStep(msgs, s).sc == s.sc && MergeStep(msgs, s).subjects == s.subjects
            && AllMessages(s.sc, z) && Tidy(s.sc, w)
  {
    hide Tidy, KidsOf, SetKids, Distinct, Between;
    var me := RootOf(msgs, s.sc, s.todo.id, s.todo.kids);
    e := s.subjects[me.subject];
    FiledIsTop(msgs, s, me.subject);
    z := if IsMessage(s.sc, s.todo.id) then Cons(s.todo.id, s.todo.kids, Nil) else s.todo.kids;
    if IsMessage(s.sc, e) {
      assert Roots(msgs, s.sc, s.todo)[0] in Roots(msgs, s.sc, s.todo);
    }
    AbsorbForest(msgs, s, e, z);
  }

  lemma {:induction false} AbsorbGathers(msgs: seq<Message>, s: MergeState, x: int, y: int)
    requires MergeOk(msgs, s) && s.todo.Cons? && !Stays(msgs, s) && Absorbed(msgs, s)
    requires InTree(Whole(s), x, y) && IsMessage(s.sc, y)
    ensures InTree(Whole(MergeStep(msgs, s)), Into(msgs, s, x), y)
  {
    hide MergeOk, MergeStep, KidsOf, SetKids, Distinct, InTree, Absorbed, Stays;
    var e, z := AbsorbShape(msgs, s);
    var w := Append(s.done, s.todo.rest);
    TakenApart(s, x, y);
    if InTree(w, x, y) {
      InTopOnce(s, x, y);
    }
    InMoreKids(w, e, z, Into(msgs, s, x), y);
  }

  /** The current thread is nowhere else. */
  lemma {:induction false} InTopOnce(s: MergeState, x: int, y: int)
    requires s.todo.Cons? && Distinct(Whole(s)) && InTree(Append(s.done, s.todo.rest), x, y)
    ensures x != s.todo.id
  {
    AppendFacts(s.done, s.todo);
    AppendFacts(s.done, s.todo.rest);
    InTop(Append(s.done, s.todo.rest), x, y);
    TopsAreIds(Append(s.done, s.todo.rest));
  }

  lemma {:induction false} PairShape(msgs: seq<Message>, s: MergeState) returns (e: int, ke: Forest)
    requires MergeOk(msgs, s) && s.todo.Cons? && !Stays(msgs, s) && !Absorbed(msgs, s)
    ensures var t := RootOf(msgs, s.sc, s.todo.id, s.todo.kids).subject;
            && t != "" && t in s.subjects && e == s.subjects[t] != s.todo.id
            && MergeStep(msgs, s).subjects == s.subjects[t := |s.sc|]
    ensures e in Tops(s.done) && ke == KidsOf(s.done, e) && Distinct(s.done) && Distinct(Whole(s))
    ensures Whole(MergeStep(msgs, s))
            == Append(Append(Detach(s.done, e), Paired(|s.sc|, e, ke, s.todo.id, s.todo.kids)), s.todo.rest)
    ensures MergeStep(msgs, s).sc == s.sc + [NIL] && IsMessage(s.sc, e) && IsMessage(s.sc, s.todo.id)
  {
    hide Tidy, Between, TableOk;
    var me := RootOf(msgs, s.sc, s.todo.id, s.todo.kids);
    e := s.subjects[me.subject];
    FiledIsPassed(msgs, s, e, KidsOf(Append(s.done, s.todo.rest), e));
    FreshForest(s, e);
    AppendFacts(s.done, s.todo);
    ke := KidsOf(s.done, e);
  }

  lemma {:induction false} InPaired(d: int, e: int, ke: Forest, cur: int, k: Forest, y: int)
    requires y == e || y in Ids(ke) || y == cur || y in Ids(k)
    ensures InTree(Paired(d, e, ke, cur, k), d, y)
  {
    assert Ids(Cons(cur, k, Nil)) == {cur} + Ids(k);
  }

  lemma {:induction false} PairGathers(msgs: seq<Message>, s: MergeState, x: int, y: int)
    requires MergeOk(msgs, s) && s.todo.Cons? && !Stays(msgs, s) && !Absorbed(msgs, s)
    requires InTree(Whole(s), x, y)
    ensures InTree(Whole(MergeStep(msgs, s)), Into(msgs, s, x), y)
  {
    hide MergeOk, MergeStep, KidsOf, Detach, Distinct, InTree, Absorbed, Stays, Paired;
    var e, ke := PairShape(msgs, s);
    var (cur, k, r) := (s.todo.id, s.todo.kids, s.todo.rest);
    var pairing := Paired(|s.sc|, e, ke, cur, k);
    var left := Detach(s.done, e);
    var z := Into(msgs, s, x);
    InAppend(Append(left, pairing), r, z, y);
    InAppend(left, pairing, z, y);
    TakenApart(s, x, y);
    if InTree(Append(s.done, r), x, y) {
      InTopOnce(s, x, y);
      InAppend(s.done, r, x, y);
      if x == e {
        EInDone(s, e, y);
        InPaired(|s.sc|, e, ke, cur, k, y);
      } else if InTree(s.done, x, y) {
        InDetached(s.done, e, x, y);
      }
    } else {
      InPaired(|s.sc|, e, ke, cur, k, y);
    }
  }

  /** The filed thread is passed, so it is not ahead. */
  lemma {:induction false} EInDone(s: MergeState, e: int, y: int)
    requires s.todo.Cons? && Distinct(Whole(s)) && e in Tops(s.done) && InTree(Append(s.done, s.todo.rest), e, y)
    ensures y == e || y in Ids(KidsOf(s.done, e))
  {
    AppendFacts(s.done, s.todo);
    AppendFacts(s.done, s.todo.rest);
    InAppend(s.done, s.todo.rest, e, y);
    InTop(s.done, e, y);
    InTop(s.todo.rest, e, y);
    TopsAreIds(s.done);
    TopsAreIds(s.todo.rest);
  }

  /** Every message follows its thread. */
  lemma {:induction false} StepGathers(msgs: seq<Message>, s: MergeState, x: int, y: int)
    requires MergeOk(msgs, s) && s.todo.Cons? && InTree(Whole(s), x, y) && IsMessage(s.sc, y)
    ensures InTree(Whole(MergeStep(msgs, s)), Into(msgs, s, x), y) && IsMessage(MergeStep(msgs, s).sc, y)
  {
    hide MergeOk, InTree, Absorbed;
    if Stays(msgs, s) {
      StaysGathers(msgs, s);
    } else if Absorbed(msgs, s) {
      AbsorbGathers(msgs, s, x, y);
      var e, z := AbsorbShape(msgs, s);
    } else {
      PairGathers(msgs, s, x, y);
      var e, ke := PairShape(msgs, s);
    }
  }

  // ----- the table -----

  ghost function AllRoots(msgs: seq<Message>, s: MergeState): seq<Root> {
    Roots(msgs, s.sc, s.done) + Roots(msgs, s.sc, s.todo)
  }

  lemma {:induction false} AllDiffer(msgs: seq<Message>, s: MergeState)
    requires Distinct(Whole(s))
    ensures DifferentIds(AllRoots(msgs, s))
  {
    RootsAppend(msgs, s.sc, s.done, s.todo);
    RootsDiffer(msgs, s.sc, Whole(s));
  }

  /** The root under which a subject is filed has that subject, and so has no other root its number. */
  lemma {:induction false} FiledRoot(msgs: seq<Message>, s: MergeState, t: string, x: Root)
    requires MergeOk(msgs, s) && t in s.subjects && x in AllRoots(msgs, s) && x.id == s.subjects[t]
    ensures x.subject == t
  {
    hide Tidy, Distinct, Between, Roots, RootOf;
    AllDiffer(msgs, s);
    var rs := AllRoots(msgs, s);
    var y: Root :| y in rs && y.id == s.subjects[t] && y.subject == t;
    var i :| 0 <= i < |rs| && rs[i] == x;
    var j :| 0 <= j < |rs| && rs[j] == y;
  }

  lemma {:induction false} FiledOnce(msgs: seq<Message>, s: MergeState, t: string, u: string)
    requires MergeOk(msgs, s) && t in s.subjects && u in s.subjects && s.subjects[t] == s.subjects[u]
    ensures t == u
  {
    hide Tidy, Distinct, Between, Roots, RootOf;
    var x: Root :| x in AllRoots(msgs, s) && x.id == s.subjects[u] && x.subject == u;
    FiledRoot(msgs, s, t, x);
  }

  lemma FirstRoot(msgs: seq<Message>, s: MergeState)
    requires s.todo.Cons?
    ensures var ts := Roots(msgs, s.sc, s.todo);
            && |ts| > 0 && ts[0] == RootOf(msgs, s.sc, s.todo.id, s.todo.kids) && ts[0].id == s.todo.id
            && ts[0] in AllRoots(msgs, s)
  {
    assert Roots(msgs, s.sc, s.todo)[0] in Roots(msgs, s.sc, s.todo);
  }

  /** A filed thread stays filed, whatever thread it becomes. */
  lemma {:induction false} IntoFiled(msgs: seq<Message>, s: MergeState, t: string)
    requires MergeOk(msgs, s) && s.todo.Cons? && t in s.subjects
    ensures t in MergeStep(msgs, s).subjects && MergeStep(msgs, s).subjects[t] == Into(msgs, s, s.subjects[t])
  {
    hide MergeOk, Absorbed, Roots, RootOf;
    FirstRoot(msgs, s);
    var first := Roots(msgs, s.sc, s.todo)[0];
    if s.subjects[t] == s.todo.id {
      FiledRoot(msgs, s, t, first);
    }
    if !Stays(msgs, s) {
      if Absorbed(msgs, s) {
        var e, z := AbsorbShape(msgs, s);
      } else {
        var e, ke := PairShape(msgs, s);
        if s.subjects[t] == e {
          FiledOnce(msgs, s, t, first.subject);
        }
      }
    }
  }

  /** The current thread goes where its subject is filed. */
  lemma {:induction false} IntoCurrent(msgs: seq<Message>, s: MergeState)
    requires MergeOk(msgs, s) && s.todo.Cons?
    ensures var t := RootOf(msgs, s.sc, s.todo.id, s.todo.kids).subject;
            t != "" ==> t in s.subjects && t in MergeStep(msgs, s).subjects
                        && Into(msgs, s, s.todo.id) == MergeStep(msgs, s).subjects[t]
  {
    var t := RootOf(msgs, s.sc, s.todo.id, s.todo.kids).subject;
    FirstRoot(msgs, s);
    if t != "" {
      assert t in s.subjects;
      hide MergeOk, Absorbed, Roots, RootOf;
      if !Stays(msgs, s) {
        if Absorbed(msgs, s) {
          var e, z := AbsorbShape(msgs, s);
        } else {
          var e, ke := PairShape(msgs, s);
        }
      }
    }
  }

  /** The threads still to come speak as before. */
  lemma {:induction false} TodoRoots(msgs: seq<Message>, s: MergeState)
    requires MergeOk(msgs, s) && s.todo.Cons?
    ensures Roots(msgs, MergeStep(msgs, s).sc, MergeStep(msgs, s).todo) == Roots(msgs, s.sc, s.todo)[1..]
  {
    var r := s.todo.rest;
    AppendFacts(s.done, s.todo);
    AppendFacts(s.done, r);
    TidyAppendBoth(s.sc, s.done, s.todo);
    RootsAre(msgs, s.sc, s.todo);
    assert Roots(msgs, s.sc, s.todo)[1..] == Roots(msgs, s.sc, r);
    if !Stays(msgs, s) {
      if Absorbed(msgs, s) {
        AbsorbTodo(msgs, s);
      } else {
        assert Between(r, 0, |s.sc|);
        Longer(msgs, s.sc, s.sc + [NIL], r);
      }
    }
  }

  lemma {:induction false} AbsorbTodo(msgs: seq<Message>, s: MergeState)
    requires MergeOk(msgs, s) && s.todo.Cons? && !Stays(msgs, s) && Absorbed(msgs, s)
    ensures Roots(msgs, s.sc, MergeStep(msgs, s).todo) == Roots(msgs, s.sc, s.todo.rest)
  {
    hide MergeOk, MergeStep, Stays, Absorbed, Roots, Tidy, KidsOf, SetKids, Distinct, AllMessages;
    var r := s.todo.rest;
    var e, z := AbsorbShape(msgs, s);
    var w := Append(s.done, r);
    AppendFacts(s.done, r);
    TidyAppendBoth(s.sc, s.done, r);
    TopsAppend(s.done, r);
    if e in Tops(r) {
      KidsAhead(s.done, r, e);
      MoreKidsRoots(msgs, s.sc, r, e, z);
    } else {
      TopsAreIds(s.done);
      SetKidsFacts(r, e, Append(KidsOf(w, e), z));
    }
  }

  lemma {:induction false} KidsAhead(done: Forest, r: Forest, e: int)
    requires Distinct(Append(done, r)) && e in Tops(r)
    ensures KidsOf(Append(done, r), e) == KidsOf(r, e)
    decreases done
  {
    AppendFacts(done, r);
    TopsAreIds(r);
    if done.Cons? {
      KidsAhead(done.rest, r, e);
    }
  }

  // ----- the whole merge: one thread for each subject -----

  /** x is filed under t, or a thread still to come that speaks of t. */
  ghost predicate Bound(msgs: seq<Message>, s: MergeState, t: string, x: int) {
    && t != "" && t in s.subjects
    && (x == s.subjects[t]
        || exists q :: 0 <= q < |Roots(msgs, s.sc, s.todo)| && Roots(msgs, s.sc, s.todo)[q].id == x
                       && Roots(msgs, s.sc, s.todo)[q].subject == t)
  }

  lemma {:induction false} BoundNext(msgs: seq<Message>, s: MergeState, t: string, x: int)
    requires MergeOk(msgs, s) && s.todo.Cons? && Bound(msgs, s, t, x)
    ensures Bound(msgs, MergeStep(msgs, s), t, Into(msgs, s, x))
  {
    hide MergeOk, MergeStep, Absorbed, Roots;
    IntoFiled(msgs, s, t);
    if x != s.subjects[t] {
      var ts := Roots(msgs, s.sc, s.todo);
      var q :| 0 <= q < |ts| && ts[q].id == x && ts[q].subject == t;
      FirstRoot(msgs, s);
      IntoCurrent(msgs, s);
      if q > 0 {
        IntoLater(msgs, s, q);
        TodoRoots(msgs, s);
        assert ts[1..][q - 1] == ts[q];
      }
    }
  }

  /** A thread still to come that is not filed stays where it is. */
  lemma {:induction false} IntoLater(msgs: seq<Message>, s: MergeState, q: nat)
    requires MergeOk(msgs, s) && s.todo.Cons? && 0 < q < |Roots(msgs, s.sc, s.todo)|
    requires var x := Roots(msgs, s.sc, s.todo)[q]; x.subject in s.subjects && s.subjects[x.subject] != x.id
    ensures var x := Roots(msgs, s.sc, s.todo)[q]; Into(msgs, s, x.id) == x.id
  {
    FirstRoot(msgs, s);
    var ts := Roots(msgs, s.sc, s.todo);
    assert Distinct(Whole(s));
    assert ts[q] in ts && ts[q] in AllRoots(msgs, s);
    AppendFacts(s.done, s.todo);
    RootsDiffer(msgs, s.sc, s.todo);
    hide MergeOk, MergeStep, Absorbed, Roots, Distinct;
    if !Stays(msgs, s) && !Absorbed(msgs, s) {
      var e, ke := PairShape(msgs, s);
      if e == ts[q].id {
        FiledRoot(msgs, s, ts[0].subject, ts[q]);
      }
    }
  }

  /** What is in a thread that speaks of t is in the end in the thread filed under t. */
  lemma {:induction false} AllGather(msgs: seq<Message>, s: MergeState, t: string, x: int, y: int)
    requires MergeOk(msgs, s) && Bound(msgs, s, t, x) && InTree(Whole(s), x, y) && IsMessage(s.sc, y)
    ensures var r := MergeAll(msgs, s); t in r.subjects && InTree(r.done, r.subjects[t], y)
    decreases |Tops(s.todo)|
  {
    hide MergeOk, MergeStep, InTree, Into;
    if s.todo.Cons? {
      MergeStepShorter(msgs, s);
      MergeStepKeeps(msgs, s);
      BoundNext(msgs, s, t, x);
      StepGathers(msgs, s, x, y);
      AllGather(msgs, MergeStep(msgs, s), t, Into(msgs, s, x), y);
    } else {
      AppendNil(s.done);
    }
  }

  // ----- who leads it -----

  /** Thread x speaks of t, is not the one filed under it, and is either a thread of its own or meets a reply. */
  ghost predicate Meets(x: Root, t: string, e: int, reply: bool) {
    x.subject == t && x.id != e && (!x.refwd || reply)
  }

  ghost predicate NobodyMeets(msgs: seq<Message>, s: MergeState, t: string)
    requires t in s.subjects
  {
    var e := s.subjects[t];
    IsMessage(s.sc, e) ==>
      && 0 <= s.sc[e] < |msgs|
      && forall q :: 0 <= q < |Roots(msgs, s.sc, s.todo)| ==>
           !Meets(Roots(msgs, s.sc, s.todo)[q], t, e, msgs[s.sc[e]].refwd)
  }

  lemma {:induction false} AbsorbedIs(msgs: seq<Message>, s: MergeState)
    requires MergeOk(msgs, s) && s.todo.Cons? && !Stays(msgs, s)
    ensures var me := Roots(msgs, s.sc, s.todo)[0];
            var e := s.subjects[me.subject];
            && me.subject != "" && me.subject in s.subjects && me.id == s.todo.id != e
            && (Absorbed(msgs, s) <==>
                  !IsMessage(s.sc, e) || (0 <= s.sc[e] < |msgs| && !Meets(me, me.subject, e, msgs[s.sc[e]].refwd)))
  {
    FirstRoot(msgs, s);
    var me := Roots(msgs, s.sc, s.todo)[0];
    FiledIsTop(msgs, s, me.subject);
    TopsAreIds(Whole(s));
  }

  lemma {:induction false} LeaderStays(msgs: seq<Message>, s: MergeState, t: string)
    requires MergeOk(msgs, s) && t in s.subjects && NobodyMeets(msgs, s, t)
    ensures var r := MergeAll(msgs, s); t in r.subjects && r.subjects[t] == s.subjects[t]
    decreases |Tops(s.todo)|
  {
    hide MergeOk, MergeStep, Roots, Meets, NobodyMeets;
    if s.todo.Cons? {
      var s' := MergeStep(msgs, s);
      MergeStepShorter(msgs, s);
      MergeStepKeeps(msgs, s);
      IntoFiled(msgs, s, t);
      StaysLeader(msgs, s, t);
      MeetsLater(msgs, s, t);
      LeaderStays(msgs, s', t);
    }
  }

  lemma {:induction false} StaysLeader(msgs: seq<Message>, s: MergeState, t: string)
    requires MergeOk(msgs, s) && s.todo.Cons? && t in s.subjects && NobodyMeets(msgs, s, t)
    ensures Into(msgs, s, s.subjects[t]) == s.subjects[t]
  {
    hide MergeOk, MergeStep, Roots, Meets, Absorbed;
    FirstRoot(msgs, s);
    var me := Roots(msgs, s.sc, s.todo)[0];
    if s.subjects[t] == s.todo.id {
      FiledRoot(msgs, s, t, me);
    }
    if !Stays(msgs, s) {
      AbsorbedIs(msgs, s);
      if s.subjects[t] == s.subjects[me.subject] {
        FiledOnce(msgs, s, t, me.subject);
      }
    }
  }

  /** Nobody meets a leader that stays in the rest of the list either. */
  lemma {:induction false} MeetsLater(msgs: seq<Message>, s: MergeState, t: string)
    requires MergeOk(msgs, s) && s.todo.Cons? && t in s.subjects && NobodyMeets(msgs, s, t)
    requires t in MergeStep(msgs, s).subjects && MergeStep(msgs, s).subjects[t] == s.subjects[t]
    ensures NobodyMeets(msgs, MergeStep(msgs, s), t)
  {
    hide MergeOk, Roots, Meets, Absorbed, RootOf;
    TodoRoots(msgs, s);
    StepCache(msgs, s);
  }

  lemma StepCache(msgs: seq<Message>, s: MergeState)
    requires s.todo.Cons?
    ensures var sc' := MergeStep(msgs, s).sc; sc' == s.sc || sc' == s.sc + [NIL]
    ensures forall x :: IsMessage(MergeStep(msgs, s).sc, x) <==> IsMessage(s.sc, x)
  {
  }

  ghost predicate SomebodyMeets(msgs: seq<Message>, s: MergeState, t: string)
    requires t in s.subjects
  {
    var e := s.subjects[t];
    && IsMessage(s.sc, e) && 0 <= s.sc[e] < |msgs|
    && exists q :: 0 <= q < |Roots(msgs, s.sc, s.todo)|
                   && Meets(Roots(msgs, s.sc, s.todo)[q], t, e, msgs[s.sc[e]].refwd)
  }

  /** When the leader is met by the current thread, the two go under a new dummy. */
  lemma {:induction false} PairedNow(msgs: seq<Message>, s: MergeState, t: string)
    requires MergeOk(msgs, s) && s.todo.Cons? && t in s.subjects && t != "" && IsMessage(s.sc, s.subjects[t])
    requires 0 <= s.sc[s.subjects[t]] < |msgs|
    requires Meets(Roots(msgs, s.sc, s.todo)[0], t, s.subjects[t], msgs[s.sc[s.subjects[t]]].refwd)
    ensures var s' := MergeStep(msgs, s); t in s'.subjects && s'.subjects[t] == |s.sc| && s'.sc == s.sc + [NIL]
  {
    FirstRoot(msgs, s);
    hide MergeOk, MergeStep, Roots, Absorbed, RootOf;
    AbsorbedIs(msgs, s);
    var e, ke := PairShape(msgs, s);
  }

  lemma {:induction false} StillMeets(msgs: seq<Message>, s: MergeState, t: string)
    requires MergeOk(msgs, s) && s.todo.Cons? && t in s.subjects && SomebodyMeets(msgs, s, t)
    requires var e := s.subjects[t]; !Meets(Roots(msgs, s.sc, s.todo)[0], t, e, msgs[s.sc[e]].refwd)
    requires t in MergeStep(msgs, s).subjects && MergeStep(msgs, s).subjects[t] == s.subjects[t]
    ensures SomebodyMeets(msgs, MergeStep(msgs, s), t)
  {
    hide MergeOk, Roots, Meets, Absorbed, RootOf;
    TodoRoots(msgs, s);
    StepCache(msgs, s);
    var (e, ts) := (s.subjects[t], Roots(msgs, s.sc, s.todo));
    var q :| 0 <= q < |ts| && Meets(ts[q], t, e, msgs[s.sc[e]].refwd);
    assert ts[1..][q - 1] == ts[q];
  }

  lemma {:induction false} NotMetStays(msgs: seq<Message>, s: MergeState, t: string)
    requires MergeOk(msgs, s) && s.todo.Cons? && t in s.subjects && IsMessage(s.sc, s.subjects[t])
    requires 0 <= s.sc[s.subjects[t]] < |msgs|
    requires !Meets(Roots(msgs, s.sc, s.todo)[0], t, s.subjects[t], msgs[s.sc[s.subjects[t]]].refwd)
    ensures Into(msgs, s, s.subjects[t]) == s.subjects[t]
  {
    hide MergeOk, MergeStep, Roots, Meets, Absorbed;
    FirstRoot(msgs, s);
    var me := Roots(msgs, s.sc, s.todo)[0];
    if s.subjects[t] == s.todo.id {
      FiledRoot(msgs, s, t, me);
    }
    if !Stays(msgs, s) {
      AbsorbedIs(msgs, s);
      if s.subjects[t] == s.subjects[me.subject] {
        FiledOnce(msgs, s, t, me.subject);
      }
    }
  }

  /** A leader who is met gives way to a new dummy. */
  lemma {:induction false} LeaderGoes(msgs: seq<Message>, s: MergeState, t: string)
    requires MergeOk(msgs, s) && t != "" && t in s.subjects && SomebodyMeets(msgs, s, t)
    ensures var r := MergeAll(msgs, s); t in r.subjects && r.subjects[t] >= |s.sc|
    decreases |Tops(s.todo)|
  {
    hide MergeOk, MergeStep, Roots, Meets, RootOf;
    if s.todo.Cons? {
      var (s', e) := (MergeStep(msgs, s), s.subjects[t]);
      MergeStepShorter(msgs, s);
      MergeStepKeeps(msgs, s);
      StepCache(msgs, s);
      FirstRoot(msgs, s);
      if Meets(Roots(msgs, s.sc, s.todo)[0], t, e, msgs[s.sc[e]].refwd) {
        PairedNow(msgs, s, t);
        LeaderStays(msgs, s', t);
      } else {
        NotMetStays(msgs, s, t);
        IntoFiled(msgs, s, t);
        StillMeets(msgs, s, t);
        LeaderGoes(msgs, s', t);
      }
    } else {
      NoRoots(msgs, s);
    }
  }

  lemma NoRoots(msgs: seq<Message>, s: MergeState)
    requires s.todo.Nil?
    ensures Roots(msgs, s.sc, s.todo) == []
  {
  }

  // ----- from the list on -----

  /** The p-th thread is the first dummy that speaks of t. */
  ghost predicate FirstDummy(rs: seq<Root>, t: string, p: nat) {
    && p < |rs| && rs[p].subject == t && rs[p].dummy
    && forall q :: 0 <= q < p ==> !(rs[q].subject == t && rs[q].dummy)
  }

  ghost predicate NoDummy(rs: seq<Root>, t: string) {
    forall q :: 0 <= q < |rs| && rs[q].subject == t ==> !rs[q].dummy
  }

  /** The p-th thread is the only one that speaks of t and is no reply. */
  ghost predicate OnlyOriginal(rs: seq<Root>, t: string, p: nat) {
    && p < |rs| && rs[p].subject == t && !rs[p].refwd
    && forall q :: 0 <= q < |rs| && q != p && rs[q].subject == t ==> rs[q].refwd
  }

  /** The p-th thread is the only one that speaks of t. */
  ghost predicate OnlyOne(rs: seq<Root>, t: string, p: nat) {
    && p < |rs| && rs[p].subject == t
    && forall q :: 0 <= q < |rs| && q != p ==> rs[q].subject != t
  }

  /** What is filed under t. */
  lemma {:induction false} FiledIs(rs: seq<Root>, m: map<string, int>, t: string, p: nat)
    requires FiledBest(rs, m) && t != "" && DifferentIds(rs)
    requires FirstDummy(rs, t, p) || (NoDummy(rs, t) && OnlyOriginal(rs, t, p)) || OnlyOne(rs, t, p)
    ensures t in m && m[t] == rs[p].id
  {
    assert rs[p].subject in m;
    var b: nat :| Best(rs, b, t) && rs[b].id == m[t];
  }

  lemma {:induction false} RootMessage(msgs: seq<Message>, sc: seq<int>, f: Forest, i: nat)
    requires i < |Roots(msgs, sc, f)| && ValidCache(sc, |msgs|)
    ensures var x := Roots(msgs, sc, f)[i];
            && x.dummy == !IsMessage(sc, x.id)
            && (!x.dummy ==> 0 <= sc[x.id] < |msgs| && x.refwd == msgs[sc[x.id]].refwd)
    decreases i, f
  {
    if i > 0 {
      RootMessage(msgs, sc, f.rest, i - 1);
    }
  }

  ghost function Start(sc: seq<int>, h: Forest, m: map<string, int>): MergeState {
    MergeState(Nil, h, m, sc)
  }

  /** The first dummy leads the threads of its subject; without one, the only thread that is no reply, or the only one
      at all. */
  lemma {:induction false} LeaderIs(msgs: seq<Message>, sc: seq<int>, h: Forest, m: map<string, int>, t: string, p: nat)
    requires MergeOk(msgs, Start(sc, h, m)) && FiledBest(Roots(msgs, sc, h), m) && t != ""
    requires var rs := Roots(msgs, sc, h);
             FirstDummy(rs, t, p) || (NoDummy(rs, t) && OnlyOriginal(rs, t, p)) || OnlyOne(rs, t, p)
    ensures var r := MergeAll(msgs, Start(sc, h, m)); t in r.subjects && r.subjects[t] == Roots(msgs, sc, h)[p].id
  {
    hide MergeOk, MergeAll, Roots, FiledBest, FirstDummy, NoDummy, OnlyOriginal, OnlyOne, NobodyMeets;
    StartOk(msgs, sc, h, m);
    FiledIs(Roots(msgs, sc, h), m, t, p);
    UnmetAtStart(msgs, sc, h, m, t, p);
    LeaderStays(msgs, Start(sc, h, m), t);
  }

  lemma StartOk(msgs: seq<Message>, sc: seq<int>, h: Forest, m: map<string, int>)
    requires MergeOk(msgs, Start(sc, h, m))
    ensures ValidCache(sc, |msgs|) && DifferentIds(Roots(msgs, sc, h))
  {
    hide Tidy, TableOk, Between;
    assert Whole(Start(sc, h, m)) == h;
    RootsDiffer(msgs, sc, h);
  }

  lemma {:induction false} UnmetAtStart(msgs: seq<Message>, sc: seq<int>, h: Forest, m: map<string, int>, t: string,
                                        p: nat)
    requires ValidCache(sc, |msgs|) && DifferentIds(Roots(msgs, sc, h)) && t != ""
    requires var rs := Roots(msgs, sc, h);
             && (FirstDummy(rs, t, p) || (NoDummy(rs, t) && OnlyOriginal(rs, t, p)) || OnlyOne(rs, t, p))
             && t in m && m[t] == rs[p].id
    ensures NobodyMeets(msgs, Start(sc, h, m), t)
  {
    hide Roots, DifferentIds, ValidCache, NoDummy;
    RootMessage(msgs, sc, h, p);
  }

  /** Otherwise a new dummy does. */
  lemma {:induction false} NewDummyLeads(msgs: seq<Message>, sc: seq<int>, h: Forest, m: map<string, int>, t: string,
                                         p: nat, q: nat)
    requires MergeOk(msgs, Start(sc, h, m)) && FiledBest(Roots(msgs, sc, h), m) && t != ""
    requires var rs := Roots(msgs, sc, h);
             && p < q < |rs| && rs[p].subject == rs[q].subject == t && NoDummy(rs, t)
             && rs[p].refwd == rs[q].refwd
             && (rs[p].refwd ==> forall i :: 0 <= i < |rs| && rs[i].subject == t ==> rs[i].refwd)
    ensures var r := MergeAll(msgs, Start(sc, h, m)); t in r.subjects && r.subjects[t] >= |sc|
  {
    hide MergeOk, MergeAll, Roots, SomebodyMeets, DifferentIds;
    StartOk(msgs, sc, h, m);
    var rs := Roots(msgs, sc, h);
    assert rs[p].subject in m;
    var b: nat :| Best(rs, b, t) && rs[b].id == m[t];
    MetAtStart(msgs, sc, h, m, t, p, q, b);
    LeaderGoes(msgs, Start(sc, h, m), t);
  }

  lemma {:induction false} MetAtStart(msgs: seq<Message>, sc: seq<int>, h: Forest, m: map<string, int>, t: string,
                                      p: nat, q: nat, b: nat)
    requires ValidCache(sc, |msgs|) && DifferentIds(Roots(msgs, sc, h)) && t in m
    requires var rs := Roots(msgs, sc, h);
             && p < q < |rs| && rs[p].subject == rs[q].subject == t && NoDummy(rs, t)
             && rs[p].refwd == rs[q].refwd
             && (rs[p].refwd ==> forall i :: 0 <= i < |rs| && rs[i].subject == t ==> rs[i].refwd)
             && Best(rs, b, t) && rs[b].id == m[t]
    ensures SomebodyMeets(msgs, Start(sc, h, m), t)
  {
    hide Roots, ValidCache;
    var rs := Roots(msgs, sc, h);
    RootMessage(msgs, sc, h, b);
    var i := if b == p then q else p;
    assert Meets(rs[i], t, m[t], msgs[sc[m[t]]].refwd);
  }

  // ----- the finished tree -----

  /** x and x' head threads of h that speak of one subject. */
  ghost predicate SameTopic(msgs: seq<Message>, sc: seq<int>, h: Forest, x: int, x': int) {
    && x in Tops(h) && x' in Tops(h)
    && RootOf(msgs, sc, x, KidsOf(h, x)).subject == RootOf(msgs, sc, x', KidsOf(h, x')).subject != ""
  }

  /** Messages from threads of h that speak of one subject are in one thread of f. */
  ghost predicate Gathered(msgs: seq<Message>, sc: seq<int>, h: Forest, f: Forest) {
    forall x, x', y, y' ::
      SameTopic(msgs, sc, h, x, x') && InTree(h, x, y) && InTree(h, x', y') && IsMessage(sc, y) && IsMessage(sc, y') ==>
        exists z :: InTree(f, z, y) && InTree(f, z, y')
  }

  lemma {:induction false} TopBound(msgs: seq<Message>, sc: seq<int>, h: Forest, m: map<string, int>, x: int)
    requires MergeOk(msgs, Start(sc, h, m)) && FiledBest(Roots(msgs, sc, h), m) && x in Tops(h)
    requires RootOf(msgs, sc, x, KidsOf(h, x)).subject != ""
    ensures Bound(msgs, Start(sc, h, m), RootOf(msgs, sc, x, KidsOf(h, x)).subject, x)
  {
    hide Tidy, TableOk, Between, RootOf;
    var rs := Roots(msgs, sc, h);
    assert Whole(Start(sc, h, m)) == h;
    var i :| 0 <= i < |rs| && Tops(h)[i] == x;
    RootIs(msgs, sc, h, i);
    assert rs[i].subject in m;
  }

  lemma {:induction false} RootIs(msgs: seq<Message>, sc: seq<int>, f: Forest, i: nat)
    requires Distinct(f) && i < |Tops(f)|
    ensures Roots(msgs, sc, f)[i] == RootOf(msgs, sc, Tops(f)[i], KidsOf(f, Tops(f)[i]))
    decreases f
  {
    if i > 0 {
      RootIs(msgs, sc, f.rest, i - 1);
      TopsAreIds(f.rest);
      assert Tops(f)[i] == Tops(f.rest)[i - 1];
    }
  }

  lemma {:induction false} InSameFamilies(f: Forest, f': Forest, x: int, y: int)
    requires SameFamilies(f, f') && InTree(f, x, y)
    ensures InTree(f', x, y)
  {
    InTop(f, x, y);
    InTop(f', x, y);
    KidsIdsFamilies(f, f', x);
  }

  /** The merge brings the threads of each subject together, and the final sort leaves them so. */
  lemma {:induction false} MergeGathers(msgs: seq<Message>, sc: seq<int>, h: Forest, m: map<string, int>,
                                        finished: Forest)
    requires MergeOk(msgs, Start(sc, h, m)) && FiledBest(Roots(msgs, sc, h), m)
    requires SameFamilies(MergeAll(msgs, Start(sc, h, m)).done, finished)
    ensures Gathered(msgs, sc, h, finished)
  {
    hide MergeOk, MergeAll, FiledBest, InTree, RootOf, SameFamilies, Bound;
    var (s, r) := (Start(sc, h, m), MergeAll(msgs, Start(sc, h, m)));
    assert Whole(s) == h;
    forall x, x', y, y' | SameTopic(msgs, sc, h, x, x') && InTree(h, x, y) && InTree(h, x', y')
                          && IsMessage(sc, y) && IsMessage(sc, y')
      ensures exists z :: InTree(finished, z, y) && InTree(finished, z, y')
    {
      var t := RootOf(msgs, sc, x, KidsOf(h, x)).subject;
      TopBound(msgs, sc, h, m, x);
      TopBound(msgs, sc, h, m, x');
      AllGather(msgs, s, t, x, y);
      AllGather(msgs, s, t, x', y');
      InSameFamilies(r.done, finished, r.subjects[t], y);
      InSameFamilies(r.done, finished, r.subjects[t], y');
    }
  }
}
