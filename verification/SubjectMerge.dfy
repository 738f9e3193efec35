/** Step 5 of REFERENCES threading: merging top-level threads with the same subject.

    `MergeAll` is the one-pass merge on trees; its properties are proved here. The link surgery of module
    MergeLinks is proved to perform exactly that merge. */
module SubjectMerge {
  import opened Containers
  import opened Forests
  import opened Linking
  import opened Messages
  import opened Prune
  import opened ThreadNodes
  import opened ThreadSort

  // ----- the top-level threads and their subjects -----

  /** A top-level thread; a dummy speaks with the subject of its eldest child. */
  datatype Root = Root(id: int, dummy: bool, subject: string, refwd: bool)

  ghost function RootOf(msgs: seq<Message>, sc: seq<int>, id: int, kids: Forest): Root {
    var dummy := !IsMessage(sc, id);
    var speaker := if !dummy then id else if kids.Cons? then kids.id else NIL;
    if IsMessage(sc, speaker) && 0 <= sc[speaker] < |msgs|
    then Root(id, dummy, msgs[sc[speaker]].subject, msgs[sc[speaker]].refwd)
    else Root(id, dummy, "", false)
  }

  ghost function Roots(msgs: seq<Message>, sc: seq<int>, f: Forest): (r: seq<Root>)
    ensures |r| == |Tops(f)|
    ensures forall i :: 0 <= i < |r| ==> r[i].id == Tops(f)[i] && r[i].dummy == !IsMessage(sc, r[i].id)
  {
    match f
    case Nil => []
    case Cons(id, k, r) => [RootOf(msgs, sc, id, k)] + Roots(msgs, sc, r)
  }

  /** Which thread a subject is filed under: a dummy, else one that is no reply, else any. */
  ghost function Rank(r: Root): nat {
    if r.dummy then 2 else if !r.refwd then 1 else 0
  }

  ghost predicate Best(roots: seq<Root>, p: nat, t: string) {
    && p < |roots| && roots[p].subject == t
    && forall q :: 0 <= q < |roots| && roots[q].subject == t ==>
         Rank(roots[q]) <= Rank(roots[p]) && (q < p ==> Rank(roots[q]) < Rank(roots[p]))
  }

  /** Each subject is filed under the first of its best threads. */
  ghost predicate FiledBest(roots: seq<Root>, m: map<string, int>) {
    && (forall t :: t in m ==> t != "" && exists p: nat :: Best(roots, p, t) && roots[p].id == m[t])
    && (forall q :: 0 <= q < |roots| && roots[q].subject != "" ==> roots[q].subject in m)
  }

  // ----- the merge on trees -----

  datatype MergeState = MergeState(done: Forest, todo: Forest, subjects: map<string, int>, sc: seq<int>)

  ghost function Whole(s: MergeState): Forest {
    Append(s.done, s.todo)
  }

  /** e, wherever it is at top level, gets the children ke. */
  ghost function Absorb(s: MergeState, e: int, ke: Forest): MergeState
    requires s.todo.Cons?
  {
    s.(done := SetKids(s.done, e, ke), todo := SetKids(s.todo.rest, e, ke))
  }

  /** One thread of step 5C. */
  ghost function MergeStep(msgs: seq<Message>, s: MergeState): MergeState
    requires s.todo.Cons?
  {
    var (cur, k, r) := (s.todo.id, s.todo.kids, s.todo.rest);
    var me := RootOf(msgs, s.sc, cur, k);
    var one := Cons(cur, k, Nil);
    if me.subject == "" || me.subject !in s.subjects || s.subjects[me.subject] == cur then
      s.(done := Append(s.done, one), todo := r)
    else
      var e := s.subjects[me.subject];
      var ke := KidsOf(Append(s.done, r), e);
      if !IsMessage(s.sc, e) then Absorb(s, e, Append(ke, if me.dummy then k else one))
      else if me.refwd && !RootOf(msgs, s.sc, e, ke).refwd then Absorb(s, e, Append(ke, one))
      else
        var d := |s.sc|;
        MergeState(Append(Detach(s.done, e), Cons(d, Cons(e, ke, one), Nil)), r, s.subjects[me.subject := d],
                   s.sc + [NIL])
  }

  ghost function MergeAll(msgs: seq<Message>, s: MergeState): (r: MergeState)
    ensures r.todo == Nil
    decreases |Tops(s.todo)|
  {
    if s.todo.Nil? then s
    else
      MergeStepShorter(msgs, s);
      MergeAll(msgs, MergeStep(msgs, s))
  }

  lemma TopsOfSetKids(f: Forest, p: int, g: Forest)
    ensures Tops(SetKids(f, p, g)) == Tops(f)
  {
  }

  lemma MergeStepShorter(msgs: seq<Message>, s: MergeState)
    requires s.todo.Cons?
    ensures |Tops(MergeStep(msgs, s).todo)| == |Tops(s.todo)| - 1
  {
    forall e, ke
      ensures Tops(SetKids(s.todo.rest, e, ke)) == Tops(s.todo.rest)
    {
      TopsOfSetKids(s.todo.rest, e, ke);
    }
  }

  // ----- what the merge keeps -----

  /** The subject table against the threads d already passed and those, t, still to come. */
  ghost predicate TableOk(d: seq<Root>, t: seq<Root>, m: map<string, int>, sc: seq<int>) {
    && (forall s :: s in m ==> s != "" && exists x :: x in d + t && x.id == m[s] && x.subject == s)
    && (forall x :: x in d + t && x.subject != "" ==> x.subject in m)
    && (forall x :: x in d && x.subject != "" ==> m[x.subject] == x.id)
    && (forall x :: x in t && x.subject != "" && x.dummy ==> !IsMessage(sc, m[x.subject]))
    && (forall i, j :: 0 <= i < j < |t| && t[i].subject == t[j].subject != "" && m[t[j].subject] == t[j].id
                       ==> Rank(t[i]) < Rank(t[j]))
  }

  ghost predicate MergeOk(msgs: seq<Message>, s: MergeState) {
    && Distinct(Whole(s)) && Tidy(s.sc, Whole(s)) && Between(Whole(s), 0, |s.sc|) && ValidCache(s.sc, |msgs|)
    && TableOk(Roots(msgs, s.sc, s.done), Roots(msgs, s.sc, s.todo), s.subjects, s.sc)
  }

  // the subject table

  ghost predicate DifferentIds(rs: seq<Root>) {
    forall i, j :: 0 <= i < j < |rs| ==> rs[i].id != rs[j].id
  }

  lemma TableKeep(d: seq<Root>, t: seq<Root>, m: map<string, int>, sc: seq<int>)
    requires TableOk(d, t, m, sc) && t != []
    requires t[0].subject == "" || t[0].subject !in m || m[t[0].subject] == t[0].id
    ensures TableOk(d + [t[0]], t[1..], m, sc)
  {
    assert d + [t[0]] + t[1..] == d + t;
    assert t[0] in d + t;
    assert forall x :: x in t[1..] ==> x in t;
  }

  lemma TableDrop(d: seq<Root>, t: seq<Root>, m: map<string, int>, sc: seq<int>)
    requires TableOk(d, t, m, sc) && t != []
    requires t[0].subject in m && m[t[0].subject] != t[0].id
    ensures TableOk(d, t[1..], m, sc)
  {
    assert forall x :: x in d + t[1..] ==> x in d + t;
    assert forall x :: x in t[1..] ==> x in t;
    forall s | s in m
      ensures exists x :: x in d + t[1..] && x.id == m[s] && x.subject == s
    {
      var x :| x in d + t && x.id == m[s] && x.subject == s;
      assert x != t[0];
      assert x in d + t[1..] by {
        if x !in d {
          assert x in t;
        }
      }
    }
  }

  /** A message already filed under the subject of the first thread to come, not outranking it, has
      been passed. */
  lemma FiledBefore(d: seq<Root>, t: seq<Root>, m: map<string, int>, sc: seq<int>) returns (p: nat)
    requires TableOk(d, t, m, sc) && t != [] && t[0].subject in m
    requires m[t[0].subject] != t[0].id
    requires forall y :: y in d + t && y.id == m[t[0].subject] ==> Rank(y) <= Rank(t[0])
    ensures p < |d| && d[p].id == m[t[0].subject] && d[p].subject == t[0].subject
  {
    var s := t[0].subject;
    var y :| y in d + t && y.id == m[s] && y.subject == s;
    p :| p < |d| && d[p] == y;
  }

  /** The passed thread d[p] gives way to a new dummy n over it. */
  lemma TableFresh(d: seq<Root>, p: nat, t: seq<Root>, m: map<string, int>, sc: seq<int>, n: Root)
    requires TableOk(d, t, m, sc) && DifferentIds(d) && p < |d|
    requires d[p].subject == n.subject != "" && m[n.subject] == d[p].id
    requires IsMessage(sc, d[p].id) && n.id == |sc| && n.dummy
    requires forall i :: 0 <= i < |t| ==> t[i].id != n.id
    ensures TableOk(Without(d, p) + [n], t, m[n.subject := n.id], sc + [NIL])
  {
    var d' := Without(d, p) + [n];
    var m' := m[n.subject := n.id];
    forall s | s in m'
      ensures s != "" && exists x :: x in d' + t && x.id == m'[s] && x.subject == s
    {
      if s == n.subject {
        assert n in d' + t;
      } else {
        var x :| x in d + t && x.id == m[s] && x.subject == s;
        if x in d {
          StillThere(d, p, x, n);
        }
        assert x in d' + t;
      }
    }
    forall x | x in d'
      ensures x.subject != "" ==> x.subject in m' && m'[x.subject] == x.id
    {
      if x != n {
        OthersDiffer(d, p, x, n);
        assert x in d + t;
      }
    }
    forall x | x in t
      ensures x.subject != "" ==> x.subject in m' && (x.dummy ==> !IsMessage(sc + [NIL], m'[x.subject]))
    {
      assert x in d + t;
    }
  }

  lemma StillThere(d: seq<Root>, p: nat, x: Root, n: Root)
    requires p < |d| && x in d && x != d[p]
    ensures x in Without(d, p) + [n]
  {
    var i :| 0 <= i < |d| && d[i] == x;
    var d' := Without(d, p) + [n];
    assert d'[if i < p then i else i - 1] == x;
  }

  lemma OthersDiffer(d: seq<Root>, p: nat, x: Root, n: Root)
    requires DifferentIds(d) && p < |d| && x in Without(d, p) + [n] && x != n
    ensures x in d && x.id != d[p].id
  {
    var d' := Without(d, p) + [n];
    var i :| 0 <= i < |d| - 1 && d'[i] == x;
    assert d[if i < p then i else i + 1] == x;
  }

  // forests under the merge

  /** The messages held, with multiplicity. */
  ghost function Held(sc: seq<int>, f: Forest): multiset<int> {
    match f
    case Nil => multiset{}
    case Cons(id, k, r) => (if IsMessage(sc, id) then multiset{sc[id]} else multiset{}) + Held(sc, k) + Held(sc, r)
  }

  lemma HeldIsMessages(sc: seq<int>, f: Forest)
    ensures Held(sc, f) == multiset(MessagesIn(sc, f))
  {
    if f.Cons? {
      HeldIsMessages(sc, f.kids);
      HeldIsMessages(sc, f.rest);
    }
  }

  lemma HeldAppend(sc: seq<int>, f: Forest, g: Forest)
    ensures Held(sc, Append(f, g)) == Held(sc, f) + Held(sc, g)
  {
  }

  /** A new dummy at the end of the cache changes nothing for the nodes before it. */
  lemma {:induction false} Longer(msgs: seq<Message>, sc: seq<int>, sc': seq<int>, f: Forest)
    requires sc <= sc' && Between(f, 0, |sc|)
    ensures Roots(msgs, sc', f) == Roots(msgs, sc, f) && Held(sc', f) == Held(sc, f)
    ensures (AllMessages(sc, f) ==> AllMessages(sc', f)) && (Tidy(sc, f) ==> Tidy(sc', f))
    decreases f
  {
    if f.Cons? {
      assert Ids(f.kids) <= Ids(f) && Ids(f.rest) <= Ids(f) && f.id in Ids(f);
      Longer(msgs, sc, sc', f.kids);
      Longer(msgs, sc, sc', f.rest);
    }
  }

  lemma RootsAre(msgs: seq<Message>, sc: seq<int>, f: Forest)
    ensures Roots(msgs, sc, f)
            == if f.Nil? then [] else [RootOf(msgs, sc, f.id, f.kids)] + Roots(msgs, sc, f.rest)
  {
  }

  lemma {:induction false} RootsAppend(msgs: seq<Message>, sc: seq<int>, f: Forest, g: Forest)
    ensures Roots(msgs, sc, Append(f, g)) == Roots(msgs, sc, f) + Roots(msgs, sc, g)
  {
    hide RootOf, Roots;
    RootsAre(msgs, sc, f);
    RootsAre(msgs, sc, Append(f, g));
    if f.Cons? {
      RootsAppend(msgs, sc, f.rest, g);
      var (one, more, others) := ([RootOf(msgs, sc, f.id, f.kids)], Roots(msgs, sc, f.rest), Roots(msgs, sc, g));
      assert one + more + others == one + (more + others);
    } else {
      assert [] + Roots(msgs, sc, g) == Roots(msgs, sc, g);
    }
  }

  lemma TidyAppendBoth(sc: seq<int>, f: Forest, g: Forest)
    ensures Tidy(sc, Append(f, g)) <==> Tidy(sc, f) && Tidy(sc, g)
  {
  }

  lemma {:induction false} SetKidsAppend(f: Forest, g: Forest, p: int, h: Forest)
    requires Distinct(Append(f, g))
    ensures SetKids(Append(f, g), p, h) == Append(SetKids(f, p, h), SetKids(g, p, h))
    decreases f
  {
    if f.Cons? {
      AppendFacts(f, g);
      SetKidsAppend(f.rest, g, p, h);
      if f.id == p {
        SetKidsFacts(g, p, h);
      }
    }
  }

  lemma {:induction false} DetachAppend(f: Forest, g: Forest, x: int)
    requires Distinct(Append(f, g)) && x in Tops(f)
    ensures Detach(Append(f, g), x) == Append(Detach(f, x), g)
    ensures KidsOf(Append(f, g), x) == KidsOf(f, x)
    decreases f
  {
    AppendFacts(f, g);
    TopsAreIds(f.rest);
    if f.id != x {
      DetachFacts(f.kids, x);
      DetachAppend(f.rest, g, x);
    }
  }

  /** More children, all messages, for the top e: the threads speak as before. */
  lemma {:induction false} MoreKidsRoots(msgs: seq<Message>, sc: seq<int>, f: Forest, e: int, x: Forest)
    requires Distinct(f) && Tidy(sc, f) && e in Tops(f) && AllMessages(sc, x)
    ensures var f' := SetKids(f, e, Append(KidsOf(f, e), x)); Roots(msgs, sc, f') == Roots(msgs, sc, f) && Tidy(sc, f')
    decreases f
  {
    TopsAreIds(f.rest);
    if f.id == e {
      AppendMessages(sc, f.kids, x);
    } else {
      SetKidsFacts(f.kids, e, Append(KidsOf(f, e), x));
      MoreKidsRoots(msgs, sc, f.rest, e, x);
    }
  }

  lemma {:induction false} MoreKidsHeld(sc: seq<int>, f: Forest, e: int, x: Forest)
    requires Distinct(f) && e in Tops(f)
    ensures Held(sc, SetKids(f, e, Append(KidsOf(f, e), x))) == Held(sc, f) + Held(sc, x)
    decreases f
  {
    TopsAreIds(f.rest);
    if f.id == e {
      HeldAppend(sc, f.kids, x);
    } else {
      SetKidsFacts(f.kids, e, Append(KidsOf(f, e), x));
      MoreKidsHeld(sc, f.rest, e, x);
    }
  }

  lemma {:induction false} DetachHeld(sc: seq<int>, f: Forest, e: int)
    requires Distinct(f) && Tidy(sc, f) && e in Tops(f)
    ensures Tidy(sc, Detach(f, e))
    ensures Held(sc, Detach(f, e)) + Held(sc, Cons(e, KidsOf(f, e), Nil)) == Held(sc, f)
    decreases f
  {
    TopsAreIds(f.rest);
    if f.id != e {
      DetachFacts(f.kids, e);
      DetachHeld(sc, f.rest, e);
      KidsOfLater(f, e);
      var one := Cons(e, KidsOf(f.rest, e), Nil);
      HeldLater(sc, f, Detach(f.rest, e), one);
    } else {
      HeldSplit(sc, f.id, f.kids, f.rest);
    }
  }

  lemma {:induction false} HeldLater(sc: seq<int>, f: Forest, rest: Forest, one: Forest)
    requires f.Cons? && Held(sc, rest) + Held(sc, one) == Held(sc, f.rest)
    ensures Held(sc, Cons(f.id, f.kids, rest)) + Held(sc, one) == Held(sc, f)
  {
    HeldSplit(sc, f.id, f.kids, rest);
    HeldSplit(sc, f.id, f.kids, f.rest);
    hide Held;
    var top := Held(sc, Cons(f.id, f.kids, Nil));
    assert top + Held(sc, rest) + Held(sc, one) == top + (Held(sc, rest) + Held(sc, one));
  }

  lemma KidsOfLater(f: Forest, e: int)
    requires Distinct(f) && f.Cons? && f.id != e && e in Tops(f.rest)
    ensures KidsOf(f, e) == KidsOf(f.rest, e)
  {
    TopsAreIds(f.rest);
  }

  lemma HeldSplit(sc: seq<int>, id: int, k: Forest, r: Forest)
    ensures Held(sc, Cons(id, k, r)) == Held(sc, Cons(id, k, Nil)) + Held(sc, r)
  {
  }

  ghost function Without(rs: seq<Root>, p: nat): seq<Root>
    requires p < |rs|
  {
    rs[..p] + rs[p + 1..]
  }

  lemma {:induction false} DetachRoots(msgs: seq<Message>, sc: seq<int>, f: Forest, e: int) returns (p: nat)
    requires Distinct(f) && e in Tops(f)
    ensures p < |Tops(f)| && Tops(f)[p] == e
    ensures Roots(msgs, sc, Detach(f, e)) == Without(Roots(msgs, sc, f), p)
    decreases f
  {
    TopsAreIds(f.rest);
    if f.id == e {
      p := 0;
    } else {
      DetachFacts(f.kids, e);
      var q := DetachRoots(msgs, sc, f.rest, e);
      p := q + 1;
      WithoutLater(RootOf(msgs, sc, f.id, f.kids), Roots(msgs, sc, f.rest), q);
    }
  }

  lemma WithoutLater(x: Root, rs: seq<Root>, q: nat)
    requires q < |rs|
    ensures Without([x] + rs, q + 1) == [x] + Without(rs, q)
  {
  }

  lemma RootsDiffer(msgs: seq<Message>, sc: seq<int>, f: Forest)
    requires Distinct(f)
    ensures DifferentIds(Roots(msgs, sc, f))
  {
    if f.Cons? {
      RootsDiffer(msgs, sc, f.rest);
      TopsAreIds(f.rest);
      forall j | 0 <= j < |Roots(msgs, sc, f.rest)|
        ensures Roots(msgs, sc, f.rest)[j].id != f.id
      {
        assert Tops(f.rest)[j] in Tops(f.rest);
      }
    }
  }

  /** The root filed under e, found among the tops. */
  lemma RootIsTop(msgs: seq<Message>, sc: seq<int>, f: Forest, x: Root)
    requires x in Roots(msgs, sc, f)
    ensures x.id in Tops(f)
  {
    var i :| 0 <= i < |Roots(msgs, sc, f)| && Roots(msgs, sc, f)[i] == x;
    assert Tops(f)[i] == x.id;
  }

  // one step

  ghost predicate Kept(s: MergeState, s': MergeState) {
    && s.sc <= s'.sc
    && Held(s'.sc, Whole(s')) == Held(s.sc, Whole(s))
  }

  lemma StepKeeps(msgs: seq<Message>, s: MergeState)
    requires MergeOk(msgs, s) && s.todo.Cons?
    requires var me := RootOf(msgs, s.sc, s.todo.id, s.todo.kids);
             me.subject == "" || me.subject !in s.subjects || s.subjects[me.subject] == s.todo.id
    ensures MergeOk(msgs, MergeStep(msgs, s)) && Kept(s, MergeStep(msgs, s))
  {
    var one := Cons(s.todo.id, s.todo.kids, Nil);
    var d, t := Roots(msgs, s.sc, s.done), Roots(msgs, s.sc, s.todo);
    AppendAssoc(s.done, one, s.todo.rest);
    RootsAppend(msgs, s.sc, s.done, one);
    assert Roots(msgs, s.sc, one) == [t[0]];
    assert Roots(msgs, s.sc, s.todo.rest) == t[1..];
    TableKeep(d, t, s.subjects, s.sc);
  }

  /** The thread filed under a subject is one of those at top level. */
  lemma FiledIsTop(msgs: seq<Message>, s: MergeState, t: string)
    requires MergeOk(msgs, s) && t in s.subjects
    ensures s.subjects[t] in Tops(Whole(s))
  {
    var d, tt := Roots(msgs, s.sc, s.done), Roots(msgs, s.sc, s.todo);
    var x: Root :| x in d + tt && x.id == s.subjects[t] && x.subject == t;
    TopsAppend(s.done, s.todo);
    if x in d {
      RootIsTop(msgs, s.sc, s.done, x);
    } else {
      RootIsTop(msgs, s.sc, s.todo, x);
    }
  }

  /** The current thread taken off the list, the filed one e still being there. */
  lemma TakenOff(s: MergeState, e: int)
    requires Distinct(Whole(s)) && s.todo.Cons? && e in Tops(Whole(s)) && e != s.todo.id
    ensures var w := Append(s.done, s.todo.rest); var one := Cons(s.todo.id, s.todo.kids, Nil);
            && Distinct(w) && e in Tops(w) && Ids(w) !! Ids(one) && Distinct(one)
            && Ids(w) + Ids(one) == Ids(Whole(s))
            && KidsOf(w, e) == KidsOf(Whole(s), e)
  {
    var one, r := Cons(s.todo.id, s.todo.kids, Nil), s.todo.rest;
    TopsAppend(s.done, s.todo);
    TopsAppend(s.done, r);
    AppendFacts(s.done, s.todo);
    AppendFacts(s.done, r);
    assert Ids(one) == {one.id} + Ids(one.kids);
    KidsOfTakenOff(s.done, s.todo, e);
  }

  lemma TakenOffTidy(s: MergeState)
    requires Tidy(s.sc, Whole(s)) && s.todo.Cons?
    ensures var w := Append(s.done, s.todo.rest); var one := Cons(s.todo.id, s.todo.kids, Nil);
            && Tidy(s.sc, w) && AllMessages(s.sc, s.todo.kids)
            && Held(s.sc, Whole(s)) == Held(s.sc, w) + Held(s.sc, one)
  {
    TidyAppendBoth(s.sc, s.done, s.todo);
    TidyAppendBoth(s.sc, s.done, s.todo.rest);
    HeldAppend(s.sc, s.done, s.todo);
    HeldAppend(s.sc, s.done, s.todo.rest);
  }

  lemma KidsOfTakenOff(done: Forest, todo: Forest, e: int)
    requires todo.Cons? && Distinct(Append(done, todo)) && e in Tops(Append(done, todo.rest)) && e != todo.id
    ensures KidsOf(Append(done, todo.rest), e) == KidsOf(Append(done, todo), e)
  {
    TopsAppend(done, todo.rest);
    AppendFacts(done, todo);
    TopsAreIds(todo.rest);
    if done.Cons? {
      AppendFacts(done.rest, todo);
      AppendFacts(done.rest, todo.rest);
      TopsAppend(done.rest, todo.rest);
      TopsAreIds(done.rest);
    }
  }

  /** The current thread (or the children of a current dummy) goes below e. */
  lemma AbsorbForest(msgs: seq<Message>, s: MergeState, e: int, x: Forest)
    requires Distinct(Whole(s)) && Tidy(s.sc, Whole(s)) && s.todo.Cons? && e in Tops(Whole(s)) && e != s.todo.id
    requires x == (if IsMessage(s.sc, s.todo.id) then Cons(s.todo.id, s.todo.kids, Nil) else s.todo.kids)
    ensures var w := Append(s.done, s.todo.rest); var s' := Absorb(s, e, Append(KidsOf(w, e), x));
            && Whole(s') == SetKids(w, e, Append(KidsOf(w, e), x))
            && Distinct(Whole(s')) && Tidy(s.sc, Whole(s')) && Ids(Whole(s')) <= Ids(Whole(s))
            && Held(s.sc, Whole(s')) == Held(s.sc, Whole(s))
            && e in Tops(w) && Distinct(w) && Tidy(s.sc, w) && AllMessages(s.sc, x)
  {
    var r := s.todo.rest;
    var w := Append(s.done, r);
    TakenOff(s, e);
    TakenOffTidy(s);
    var ke' := Append(KidsOf(w, e), x);
    KidsOfFacts(w, e);
    AppendFacts(KidsOf(w, e), x);
    SetKidsAppend(s.done, r, e, ke');
    SetKidsFacts(w, e, ke');
    TopsAreIds(w);
    MoreKidsRoots(msgs, s.sc, w, e, x);
    MoreKidsHeld(s.sc, w, e, x);
  }

  lemma AbsorbKeeps(msgs: seq<Message>, s: MergeState, e: int, x: Forest)
    requires MergeOk(msgs, s) && s.todo.Cons?
    requires var me := RootOf(msgs, s.sc, s.todo.id, s.todo.kids);
             me.subject in s.subjects && s.subjects[me.subject] == e && e != s.todo.id
    requires x == (if IsMessage(s.sc, s.todo.id) then Cons(s.todo.id, s.todo.kids, Nil) else s.todo.kids)
    ensures var s' := Absorb(s, e, Append(KidsOf(Append(s.done, s.todo.rest), e), x));
            MergeOk(msgs, s') && Kept(s, s')
  {
    var d, t := Roots(msgs, s.sc, s.done), Roots(msgs, s.sc, s.todo);
    FiledIsTop(msgs, s, t[0].subject);
    AbsorbForest(msgs, s, e, x);
    AbsorbRoots(msgs, s, e, x);
    assert Roots(msgs, s.sc, s.todo.rest) == t[1..];
    TableDrop(d, t, s.subjects, s.sc);
  }

  lemma AbsorbRoots(msgs: seq<Message>, s: MergeState, e: int, x: Forest)
    requires s.todo.Cons? && Distinct(Append(s.done, s.todo.rest)) && e in Tops(Append(s.done, s.todo.rest))
    requires Tidy(s.sc, Append(s.done, s.todo.rest)) && AllMessages(s.sc, x)
    ensures var ke' := Append(KidsOf(Append(s.done, s.todo.rest), e), x);
            && Roots(msgs, s.sc, SetKids(s.done, e, ke')) == Roots(msgs, s.sc, s.done)
            && Roots(msgs, s.sc, SetKids(s.todo.rest, e, ke')) == Roots(msgs, s.sc, s.todo.rest)
  {
    var f, g := s.done, s.todo.rest;
    var ke := KidsOf(Append(f, g), e);
    AppendFacts(f, g);
    TopsAppend(f, g);
    TidyAppendBoth(s.sc, f, g);
    TopsAreIds(f);
    TopsAreIds(g);
    if e in Tops(f) {
      DetachAppend(f, g, e);
      MoreKidsRoots(msgs, s.sc, f, e, x);
      SetKidsFacts(g, e, Append(ke, x));
    } else {
      KidsOfSecond(f, g, e);
      MoreKidsRoots(msgs, s.sc, g, e, x);
      SetKidsFacts(f, e, Append(ke, x));
    }
  }

  lemma KidsOfSecond(f: Forest, g: Forest, e: int)
    requires Distinct(Append(f, g)) && e in Ids(g)
    ensures KidsOf(Append(f, g), e) == KidsOf(g, e) && e !in Ids(f)
  {
    AppendFacts(f, g);
    if f.Cons? {
      KidsOfSecond(f.rest, g, e);
    }
  }

  /** The new dummy d over the filed thread e and the current one. */
  ghost function Paired(d: int, e: int, ke: Forest, cur: int, k: Forest): Forest {
    Cons(d, Cons(e, ke, Cons(cur, k, Nil)), Nil)
  }

  /** The new dummy with its two children. */
  lemma {:induction false} FreshPair(s: MergeState, e: int)
    requires Distinct(Whole(s)) && Between(Whole(s), 0, |s.sc|) && s.todo.Cons? && e in Tops(s.done)
    ensures var ke := KidsOf(s.done, e); var pairing := Paired(|s.sc|, e, ke, s.todo.id, s.todo.kids);
            && Distinct(pairing)
            && Ids(pairing) == {|s.sc|, e, s.todo.id} + Ids(ke) + Ids(s.todo.kids)
            && |s.sc| !in Ids(Whole(s)) && Ids(Whole(s)) == Ids(s.done) + Ids(s.todo) && Ids(s.done) !! Ids(s.todo)
            && {e} + Ids(ke) <= Ids(s.done) && Distinct(s.done) && Distinct(s.todo)
  {
    var ke := KidsOf(s.done, e);
    AppendFacts(s.done, s.todo);
    TopsAreIds(s.done);
    KidsOfFacts(s.done, e);
    var one := Cons(s.todo.id, s.todo.kids, Nil);
    assert Distinct(s.todo);
    assert Ids(one) == {s.todo.id} + Ids(s.todo.kids) <= Ids(s.todo);
    assert Distinct(one);
    assert e !in Ids(ke) && Distinct(ke);
    assert Distinct(Cons(e, ke, one)) && Ids(Cons(e, ke, one)) == {e} + Ids(ke) + Ids(one);
    assert Ids(Whole(s)) == Ids(s.done) + Ids(s.todo);
    assert |s.sc| !in Ids(Whole(s));
  }

  lemma {:induction false} FreshForest(s: MergeState, e: int)
    requires Distinct(Whole(s)) && Between(Whole(s), 0, |s.sc|) && s.todo.Cons? && e in Tops(s.done)
    ensures var ke := KidsOf(s.done, e); var pairing := Paired(|s.sc|, e, ke, s.todo.id, s.todo.kids);
            var f := Append(Append(Detach(s.done, e), pairing), s.todo.rest);
            && Distinct(f) && Between(f, 0, |s.sc| + 1)
            && KidsOf(Append(s.done, s.todo.rest), e) == ke
  {
    var ke, r, rest := KidsOf(s.done, e), s.todo.rest, Detach(s.done, e);
    var pairing := Paired(|s.sc|, e, ke, s.todo.id, s.todo.kids);
    FreshPair(s, e);
    DetachFacts(s.done, e);
    KeptKids(s.done, r, e);
    assert Ids(s.todo) == {s.todo.id} + Ids(s.todo.kids) + Ids(r) && Distinct(r);
    hide Detach;
    AppendFacts(rest, pairing);
    AppendFacts(Append(rest, pairing), r);
    assert Ids(Append(Append(rest, pairing), r)) <= Ids(Whole(s)) + {|s.sc|};
  }

  lemma {:induction false} KeptKids(done: Forest, r: Forest, e: int)
    requires Distinct(done) && e in Tops(done)
    ensures KidsOf(Append(done, r), e) == KidsOf(done, e)
    decreases done
  {
    TopsAreIds(done.rest);
    if done.id != e {
      KeptKids(done.rest, r, e);
    }
  }

  lemma PairIds(s: MergeState, e: int)
    requires Distinct(s.done) && s.todo.Cons? && e in Tops(s.done)
    ensures Ids(Paired(|s.sc|, e, KidsOf(s.done, e), s.todo.id, s.todo.kids).kids) <= Ids(Whole(s))
    ensures Ids(Detach(s.done, e)) <= Ids(Whole(s)) && Ids(s.todo.rest) <= Ids(Whole(s))
  {
    AppendFacts(s.done, s.todo);
    DetachFacts(s.done, e);
    TopsAreIds(s.done);
    KidsOfFacts(s.done, e);
    var one := Cons(s.todo.id, s.todo.kids, Nil);
    assert Ids(one) == {one.id} + Ids(one.kids);
    assert Ids(Cons(e, KidsOf(s.done, e), one)) == {e} + Ids(KidsOf(s.done, e)) + Ids(one);
  }

  /** A new dummy over p, put between a and r. */
  lemma {:induction false} UnderNewDummy(msgs: seq<Message>, sc: seq<int>, a: Forest, p: Forest, r: Forest)
    requires Tidy(sc, a) && AllMessages(sc, p) && Tidy(sc, r) && p.Cons? && p.rest.Cons?
    requires Between(a, 0, |sc|) && Between(p, 0, |sc|) && Between(r, 0, |sc|)
    ensures var f := Append(Append(a, Cons(|sc|, p, Nil)), r);
            Tidy(sc + [NIL], f) && Held(sc + [NIL], f) == Held(sc, a) + Held(sc, p) + Held(sc, r)
  {
    var sc', n := sc + [NIL], Cons(|sc|, p, Nil);
    Longer(msgs, sc, sc', a);
    Longer(msgs, sc, sc', p);
    Longer(msgs, sc, sc', r);
    assert Tidy(sc', n);
    TidyAppendBoth(sc', a, n);
    TidyAppendBoth(sc', Append(a, n), r);
    HeldThree(sc', a, p, r, |sc|);
  }

  lemma {:induction false} HeldThree(sc: seq<int>, a: Forest, p: Forest, r: Forest, d: int)
    requires !IsMessage(sc, d)
    ensures Held(sc, Append(Append(a, Cons(d, p, Nil)), r)) == Held(sc, a) + Held(sc, p) + Held(sc, r)
  {
    var n := Cons(d, p, Nil);
    HeldAppend(sc, a, n);
    HeldAppend(sc, Append(a, n), r);
    assert Held(sc, n) == Held(sc, p) + Held(sc, Nil);
  }

  lemma FreshTidy(msgs: seq<Message>, s: MergeState, e: int)
    requires Distinct(s.done) && Tidy(s.sc, Whole(s)) && Between(Whole(s), 0, |s.sc|) && s.todo.Cons?
             && e in Tops(s.done)
    requires IsMessage(s.sc, e) && IsMessage(s.sc, s.todo.id)
    ensures var pairing := Paired(|s.sc|, e, KidsOf(s.done, e), s.todo.id, s.todo.kids);
            var f := Append(Append(Detach(s.done, e), pairing), s.todo.rest);
            Tidy(s.sc + [NIL], f) && Held(s.sc + [NIL], f) == Held(s.sc, Whole(s))
  {
    var ke, r, rest := KidsOf(s.done, e), s.todo.rest, Detach(s.done, e);
    var one := Cons(s.todo.id, s.todo.kids, Nil);
    TidyAppendBoth(s.sc, s.done, s.todo);
    TidyTop(s.sc, s.done, e);
    assert AllMessages(s.sc, one);
    DetachHeld(s.sc, s.done, e);
    PairIds(s, e);
    UnderNewDummy(msgs, s.sc, rest, Cons(e, ke, one), r);
    FreshHeld(s.sc, s, e);
  }

  lemma FreshHeld(sc: seq<int>, s: MergeState, e: int)
    requires Distinct(s.done) && Tidy(sc, s.done) && s.todo.Cons? && e in Tops(s.done)
    ensures Held(sc, Whole(s)) == Held(sc, Detach(s.done, e))
      + Held(sc, Cons(e, KidsOf(s.done, e), Cons(s.todo.id, s.todo.kids, Nil))) + Held(sc, s.todo.rest)
  {
    DetachHeld(sc, s.done, e);
    HeldAppend(sc, s.done, s.todo);
    HeldSplit(sc, e, KidsOf(s.done, e), Cons(s.todo.id, s.todo.kids, Nil));
    HeldSplit(sc, s.todo.id, s.todo.kids, s.todo.rest);
  }

  lemma RootFields(msgs: seq<Message>, sc: seq<int>, f: Forest, x: Root, kids: Forest)
    requires x in Roots(msgs, sc, f) && IsMessage(sc, x.id)
    ensures x == RootOf(msgs, sc, x.id, kids)
  {
    var i :| 0 <= i < |Roots(msgs, sc, f)| && Roots(msgs, sc, f)[i] == x;
    if i > 0 {
      assert Roots(msgs, sc, f.rest)[i - 1] == x;
      RootFields(msgs, sc, f.rest, x, kids);
    }
  }

  /** When the current thread and the filed one e are both messages, and not just the current one a
      reply, e has been passed already. */
  lemma FiledIsPassed(msgs: seq<Message>, s: MergeState, e: int, ke: Forest)
    requires MergeOk(msgs, s) && s.todo.Cons?
    requires var me := RootOf(msgs, s.sc, s.todo.id, s.todo.kids);
             && me.subject in s.subjects && s.subjects[me.subject] == e && e != s.todo.id
             && IsMessage(s.sc, e) && !(me.refwd && !RootOf(msgs, s.sc, e, ke).refwd)
    ensures e in Tops(s.done) && IsMessage(s.sc, s.todo.id)
    ensures RootOf(msgs, s.sc, e, ke).subject == RootOf(msgs, s.sc, s.todo.id, s.todo.kids).subject
  {
    var d, t := Roots(msgs, s.sc, s.done), Roots(msgs, s.sc, s.todo);
    assert t[0] in t;
    forall y | y in d + t && y.id == e
      ensures Rank(y) <= Rank(t[0])
    {
      if y in d {
        RootFields(msgs, s.sc, s.done, y, ke);
      } else {
        RootFields(msgs, s.sc, s.todo, y, ke);
      }
    }
    var p := FiledBefore(d, t, s.subjects, s.sc);
    RootIsTop(msgs, s.sc, s.done, d[p]);
    RootFields(msgs, s.sc, s.done, d[p], ke);
  }

  lemma FreshKeeps(msgs: seq<Message>, s: MergeState, e: int)
    requires MergeOk(msgs, s) && s.todo.Cons? && e in Tops(s.done) && e != s.todo.id
    requires IsMessage(s.sc, e) && IsMessage(s.sc, s.todo.id)
    requires var me := RootOf(msgs, s.sc, s.todo.id, s.todo.kids);
             && me.subject in s.subjects && s.subjects[me.subject] == e
             && RootOf(msgs, s.sc, e, KidsOf(s.done, e)).subject == me.subject
    ensures var ke := KidsOf(s.done, e); var pairing := Paired(|s.sc|, e, ke, s.todo.id, s.todo.kids);
            var t := RootOf(msgs, s.sc, s.todo.id, s.todo.kids).subject;
            var s' := MergeState(Append(Detach(s.done, e), pairing), s.todo.rest, s.subjects[t := |s.sc|],
                                 s.sc + [NIL]);
            MergeOk(msgs, s') && Kept(s, s') && KidsOf(Append(s.done, s.todo.rest), e) == ke
  {
    hide TableOk, Tidy, Held, Roots, Detach, KidsOf, RootOf;
    AppendFacts(s.done, s.todo);
    FreshForest(s, e);
    TidyAppendBoth(s.sc, s.done, s.todo);
    FreshTidy(msgs, s, e);
    FreshRoots(msgs, s, e);
  }

  lemma FreshRoots(msgs: seq<Message>, s: MergeState, e: int)
    requires MergeOk(msgs, s) && s.todo.Cons? && e in Tops(s.done) && e != s.todo.id
    requires IsMessage(s.sc, e) && IsMessage(s.sc, s.todo.id)
    requires var me := RootOf(msgs, s.sc, s.todo.id, s.todo.kids);
             && me.subject in s.subjects && s.subjects[me.subject] == e
             && RootOf(msgs, s.sc, e, KidsOf(s.done, e)).subject == me.subject
    ensures var ke := KidsOf(s.done, e); var pairing := Paired(|s.sc|, e, ke, s.todo.id, s.todo.kids);
            var t := RootOf(msgs, s.sc, s.todo.id, s.todo.kids).subject; var sc' := s.sc + [NIL];
            TableOk(Roots(msgs, sc', Append(Detach(s.done, e), pairing)), Roots(msgs, sc', s.todo.rest),
                    s.subjects[t := |s.sc|], sc')
  {
    hide TableOk, Tidy, Detach, KidsOf;
    var ke, r, sc' := KidsOf(s.done, e), s.todo.rest, s.sc + [NIL];
    var pairing, rest := Paired(|s.sc|, e, ke, s.todo.id, s.todo.kids), Detach(s.done, e);
    var d, t := Roots(msgs, s.sc, s.done), Roots(msgs, s.sc, s.todo);
    var subject := t[0].subject;
    assert Roots(msgs, s.sc, r) == t[1..];
    AppendFacts(s.done, s.todo);
    DetachFacts(s.done, e);
    Longer(msgs, s.sc, sc', rest);
    Longer(msgs, s.sc, sc', r);
    RootsAppend(msgs, sc', rest, pairing);
    RootsDiffer(msgs, s.sc, s.done);
    var p := DetachRoots(msgs, s.sc, s.done, e);
    assert d[p] in d && d[p].id == e;
    RootFields(msgs, s.sc, s.done, d[p], ke);
    var n := RootOf(msgs, sc', |s.sc|, pairing.kids);
    assert Roots(msgs, sc', pairing) == [n];
    TopsAreIds(s.done);
    TableDrop(d, t, s.subjects, s.sc);
    forall i | 0 <= i < |t[1..]|
      ensures t[1..][i].id != |s.sc|
    {
      assert t[1..][i] in Roots(msgs, s.sc, r);
      RootIsTop(msgs, s.sc, r, t[1..][i]);
      TopsAreIds(r);
    }
    TableFresh(d, p, t[1..], s.subjects, s.sc, n);
  }

  /** Every step keeps the invariant and every message. */
  lemma MergeStepKeeps(msgs: seq<Message>, s: MergeState)
    requires MergeOk(msgs, s) && s.todo.Cons?
    ensures MergeOk(msgs, MergeStep(msgs, s)) && Kept(s, MergeStep(msgs, s))
  {
    var me := RootOf(msgs, s.sc, s.todo.id, s.todo.kids);
    var one := Cons(s.todo.id, s.todo.kids, Nil);
    if me.subject == "" || me.subject !in s.subjects || s.subjects[me.subject] == s.todo.id {
      StepKeeps(msgs, s);
    } else {
      var e := s.subjects[me.subject];
      var ke := KidsOf(Append(s.done, s.todo.rest), e);
      if !IsMessage(s.sc, e) {
        AbsorbKeeps(msgs, s, e, if me.dummy then s.todo.kids else one);
      } else if me.refwd && !RootOf(msgs, s.sc, e, ke).refwd {
        assert Roots(msgs, s.sc, s.todo)[0] in Roots(msgs, s.sc, s.todo);
        AbsorbKeeps(msgs, s, e, one);
      } else {
        FiledIsPassed(msgs, s, e, ke);
        FreshKeeps(msgs, s, e);
      }
    }
  }

  /** No two top-level threads share a non-empty subject. */
  ghost predicate SubjectsDiffer(rs: seq<Root>) {
    forall i, j :: 0 <= i < j < |rs| && rs[i].subject != "" ==> rs[i].subject != rs[j].subject
  }

  /** The whole merge: no message lost or doubled, dummies at top level with message children only,
      every subject filed under a thread on the list, one thread a subject. */
  lemma {:induction false} MergeAllFacts(msgs: seq<Message>, s: MergeState)
    requires MergeOk(msgs, s)
    ensures var r := MergeAll(msgs, s);
            && MergeOk(msgs, r) && Kept(s, r)
            && SubjectsDiffer(Roots(msgs, r.sc, r.done))
            && (forall t :: t in r.subjects ==> r.subjects[t] in Tops(r.done))
    decreases |Tops(s.todo)|
  {
    if s.todo.Cons? {
      MergeStepShorter(msgs, s);
      MergeStepKeeps(msgs, s);
      MergeAllFacts(msgs, MergeStep(msgs, s));
    } else {
      AppendNil(s.done);
      var rs := Roots(msgs, s.sc, s.done);
      RootsDiffer(msgs, s.sc, s.done);
      assert forall i :: 0 <= i < |rs| ==> rs[i] in rs && rs[i] in rs + [];
      forall t | t in s.subjects
        ensures s.subjects[t] in Tops(s.done)
      {
        FiledIsTop(msgs, s, t);
      }
    }
  }
}
