/** Step 5 of REFERENCES threading as the code does it: filing top-level threads by subject in the
    hash table, then merging them by relinking nodes in one pass over the list. */
module MergeLinks {
  import opened Containers
  import opened Forests
  import opened HashTable
  import opened Linking
  import opened Messages
  import opened Prune
  import opened SubjectMerge
  import opened ThreadNodes

  // ----- step 5B: the subject table -----

  ghost predicate SpeaksFor(msgs: seq<Message>, sc: seq<int>, next: seq<int>, x: int, r: Root, nxt: int) {
    && 0 <= x < |sc| == |next| && r.id == x && r.dummy == (sc[x] == NIL)
    && nxt == (if sc[x] == NIL then next[x] else x)
    && 0 <= nxt < |sc| && 0 <= sc[nxt] < |msgs|
    && r.subject == msgs[sc[nxt]].subject && r.refwd == msgs[sc[nxt]].refwd
  }

  /** The node whose message speaks for the first thread of a tidy list. */
  lemma Speaker(msgs: seq<Message>, sc: seq<int>, next: seq<int>, branch: seq<int>, cur: int, f: Forest)
    requires f.Cons? && Chain(next, branch, cur, f) && Tidy(sc, f) && Between(f, 0, |sc|) && |next| == |sc|
    requires ValidCache(sc, |msgs|)
    ensures var nxt := if sc[cur] == NIL then next[cur] else cur;
            SpeaksFor(msgs, sc, next, cur, RootOf(msgs, sc, f.id, f.kids), nxt)
  {
    if f.kids.Cons? {
      assert f.kids.id in Ids(f.kids);
    }
  }

  lemma FiledBestNext(rs: seq<Root>, m: map<string, int>, x: Root, p: nat)
    requires FiledBest(rs, m) && DifferentIds(rs + [x])
    requires x.subject in m ==> Best(rs, p, x.subject) && rs[p].id == m[x.subject]
    ensures x.subject == "" ==> FiledBest(rs + [x], m)
    ensures x.subject != "" && (x.subject !in m || Rank(x) > Rank(rs[p])) ==> FiledBest(rs + [x], m[x.subject := x.id])
    ensures x.subject in m && Rank(x) <= Rank(rs[p]) ==> FiledBest(rs + [x], m)
  {
    var rs' := rs + [x];
    forall t, q: nat | Best(rs, q, t) && (t != x.subject || Rank(x) <= Rank(rs[q]))
      ensures Best(rs', q, t) && rs'[q] == rs[q]
    {
    }
    if x.subject != "" && (x.subject !in m || Rank(x) > Rank(rs[p])) {
      assert Best(rs', |rs|, x.subject) && rs'[|rs|] == x;
    }
  }

  /** Step 5B: file each top-level thread under its subject. */
  method FileSubjects(nodes: NodeTable, ht: HashTab, root: int, msgs: seq<Message>, ghost f: Forest)
    requires nodes.Sized() && Chain(nodes.next, nodes.branch, root, f) && Distinct(f)
    requires Tidy(nodes.sc, f) && Between(f, 0, |nodes.sc|) && ValidCache(nodes.sc, |msgs|)
    requires ht.Valid() && ht.contents == map[]
    modifies ht, ht.table
    ensures ht.Valid() && FiledBest(Roots(msgs, nodes.sc, f), ht.contents)
  {
    var cur := root;
    ghost var done, todo := Nil, f;
    RootsDiffer(msgs, nodes.sc, f);
    while cur != NIL
      invariant Append(done, todo) == f && Chain(nodes.next, nodes.branch, cur, todo)
      invariant ht.Valid() && FiledBest(Roots(msgs, nodes.sc, done), ht.contents)
      decreases todo
    {
      ghost var one := Cons(cur, todo.kids, Nil);
      AppendAssoc(done, one, todo.rest);
      RootsAppend(msgs, nodes.sc, done, todo);
      RootsAppend(msgs, nodes.sc, done, one);
      assert Roots(msgs, nodes.sc, one) == [RootOf(msgs, nodes.sc, cur, todo.kids)];
      FileThread(nodes, ht, cur, msgs, done, todo, f);
      done, todo := Append(done, one), todo.rest;
      cur := nodes.branch[cur];
    }
    AppendNil(done);
  }

  /** One round of step 5B. */
  method FileThread(nodes: NodeTable, ht: HashTab, cur: int, msgs: seq<Message>, ghost done: Forest,
                    ghost todo: Forest, ghost f: Forest)
    requires nodes.Sized() && Append(done, todo) == f && todo.Cons? && Chain(nodes.next, nodes.branch, cur, todo)
    requires Tidy(nodes.sc, f) && Between(f, 0, |nodes.sc|) && ValidCache(nodes.sc, |msgs|)
    requires Distinct(f) && ht.Valid() && FiledBest(Roots(msgs, nodes.sc, done), ht.contents)
    modifies ht, ht.table
    ensures ht.Valid()
    ensures FiledBest(Roots(msgs, nodes.sc, done) + [RootOf(msgs, nodes.sc, cur, todo.kids)], ht.contents)
  {
    ghost var rs, x := Roots(msgs, nodes.sc, done), RootOf(msgs, nodes.sc, cur, todo.kids);
    ThreadToFile(msgs, nodes.sc, nodes.next, nodes.branch, cur, done, todo);
    var nxt := if nodes.sc[cur] != NIL then cur else nodes.next[cur];
    var t := msgs[nodes.sc[nxt]].subject;
    ghost var p: nat := 0;
    if t in ht.contents {
      p :| Best(rs, p, t) && rs[p].id == ht.contents[t];
      assert rs[p] in rs;
      RootIsTop(msgs, nodes.sc, done, rs[p]);
      FiledThread(msgs, nodes.sc, done, todo, rs[p]);
    }
    FiledBestNext(rs, ht.contents, x, p);
    if t != "" {
      var found, lst := ht.Lookup(t);
      if !found {
        ht.Add(t, cur);
      } else if nodes.sc[lst] != NIL
                && (nodes.sc[cur] == NIL || (!msgs[nodes.sc[nxt]].refwd && msgs[nodes.sc[lst]].refwd)) {
        ht.Replace(t, cur);
      }
    }
  }

  lemma ThreadToFile(msgs: seq<Message>, sc: seq<int>, next: seq<int>, branch: seq<int>, cur: int, done: Forest,
                     todo: Forest)
    requires todo.Cons? && Chain(next, branch, cur, todo) && |next| == |sc| && ValidCache(sc, |msgs|)
    requires var f := Append(done, todo); Distinct(f) && Tidy(sc, f) && Between(f, 0, |sc|)
    ensures var nxt := if sc[cur] == NIL then next[cur] else cur;
            0 <= cur < |sc| && SpeaksFor(msgs, sc, next, cur, RootOf(msgs, sc, cur, todo.kids), nxt)
    ensures DifferentIds(Roots(msgs, sc, done) + [RootOf(msgs, sc, cur, todo.kids)])
  {
    TidyAppendBoth(sc, done, todo);
    AppendFacts(done, todo);
    Speaker(msgs, sc, next, branch, cur, todo);
    var one := Cons(cur, todo.kids, Nil);
    RootsAppend(msgs, sc, done, one);
    AppendFacts(done, one);
    assert Roots(msgs, sc, one) == [RootOf(msgs, sc, cur, todo.kids)];
    RootsDiffer(msgs, sc, Append(done, one));
  }

  /** A thread filed earlier: what its node says. */
  lemma {:induction false} FiledThread(msgs: seq<Message>, sc: seq<int>, done: Forest, todo: Forest, r: Root)
    requires r in Roots(msgs, sc, done) && Between(Append(done, todo), 0, |sc|) && ValidCache(sc, |msgs|)
    ensures 0 <= r.id < |sc| && r.dummy == (sc[r.id] == NIL)
    ensures !r.dummy ==> 0 <= sc[r.id] < |msgs| && r.refwd == msgs[sc[r.id]].refwd
  {
    AppendFacts(done, todo);
    RootIsTop(msgs, sc, done, r);
    TopsAreIds(done);
    if IsMessage(sc, r.id) {
      RootFields(msgs, sc, done, r, Nil);
    }
  }

  lemma BestFiled(rs: seq<Root>, m: map<string, int>, s: string) returns (p: nat)
    requires FiledBest(rs, m) && s in m
    ensures Best(rs, p, s) && rs[p].id == m[s] && rs[p] in rs
  {
    p :| Best(rs, p, s) && rs[p].id == m[s];
  }

  lemma FiledRanks(rs: seq<Root>, m: map<string, int>, i: nat, j: nat)
    requires FiledBest(rs, m) && DifferentIds(rs) && i < j < |rs|
    requires rs[i].subject == rs[j].subject != "" && m[rs[j].subject] == rs[j].id
    ensures Rank(rs[i]) < Rank(rs[j])
  {
    var p := BestFiled(rs, m, rs[j].subject);
    assert p == j;
  }

  lemma FiledDummy(rs: seq<Root>, m: map<string, int>, x: Root)
    requires FiledBest(rs, m) && x in rs && x.subject != "" && x.dummy
    ensures x.subject in m && exists p :: 0 <= p < |rs| && rs[p].dummy && rs[p].id == m[x.subject]
  {
    var q :| 0 <= q < |rs| && rs[q] == x;
    var p := BestFiled(rs, m, x.subject);
  }

  lemma {:induction false} FiledEntries(rs: seq<Root>, m: map<string, int>)
    requires FiledBest(rs, m)
    ensures forall s :: s in m ==> s != "" && exists x :: x in rs && x.id == m[s] && x.subject == s
  {
    forall s | s in m
      ensures s != "" && exists x :: x in rs && x.id == m[s] && x.subject == s
    {
      var p := BestFiled(rs, m, s);
      assert rs[p] in rs && rs[p].subject == s;
    }
  }

  lemma {:induction false} FiledDummies(rs: seq<Root>, m: map<string, int>, sc: seq<int>)
    requires FiledBest(rs, m) && forall i :: 0 <= i < |rs| ==> rs[i].dummy == !IsMessage(sc, rs[i].id)
    ensures forall x :: x in rs && x.subject != "" ==> x.subject in m
    ensures forall x :: x in rs && x.subject != "" && x.dummy ==> !IsMessage(sc, m[x.subject])
  {
    forall x | x in rs && x.subject != "" && x.dummy
      ensures x.subject in m && !IsMessage(sc, m[x.subject])
    {
      FiledDummy(rs, m, x);
    }
  }

  predicate FiledAs(r: Root, m: map<string, int>) {
    r.subject in m && m[r.subject] == r.id
  }

  lemma {:induction false} FiledOrder(rs: seq<Root>, m: map<string, int>)
    requires FiledBest(rs, m) && DifferentIds(rs)
    ensures forall i, j :: 0 <= i < j < |rs| && rs[i].subject == rs[j].subject != "" && FiledAs(rs[j], m)
                           ==> Rank(rs[i]) < Rank(rs[j])
  {
    hide Rank;
    forall i, j | 0 <= i < j < |rs| && rs[i].subject == rs[j].subject != "" && FiledAs(rs[j], m)
      ensures Rank(rs[i]) < Rank(rs[j])
    {
      FiledRanks(rs, m, i, j);
    }
  }

  /** The subject table as filed starts the merge off. */
  lemma {:induction false} FiledIsOk(rs: seq<Root>, m: map<string, int>, sc: seq<int>)
    requires FiledBest(rs, m) && DifferentIds(rs)
             && forall i :: 0 <= i < |rs| ==> rs[i].dummy == !IsMessage(sc, rs[i].id)
    ensures TableOk([], rs, m, sc)
  {
    hide FiledBest, Rank;
    assert [] + rs == rs;
    FiledEntries(rs, m);
    FiledDummies(rs, m, sc);
    FiledOrder(rs, m);
  }

  // ----- step 5C: the links -----

  /** The current thread leaves the list: its elder sister, or the root link, skips it. */
  lemma Skipped(child: seq<int>, sib: seq<int>, root: int, done: Forest, cur: int, k: Forest, r: Forest)
    requires Chain(child, sib, root, Append(done, Cons(cur, k, r))) && Distinct(Append(done, Cons(cur, k, r)))
    ensures 0 <= cur < |sib| && cur < |child| && Chain(child, sib, child[cur], k)
    ensures if done.Nil? then Chain(child, sib, sib[cur], r)
            else 0 <= Last(done) < |sib| && Chain(child, sib[Last(done) := sib[cur]], root, Append(done, r))
  {
    ChainSuffix(child, sib, root, done, Cons(cur, k, r));
    AppendFacts(done, Cons(cur, k, r));
    if done.Cons? {
      LastInIds(done);
      var sib' := sib[Last(done) := sib[cur]];
      ChainFrame(child, sib, child, sib', sib[cur], r);
      ChainRetail(child, sib, child, sib', root, done, Cons(cur, k, r), r);
    }
  }

  /** Where the links to be changed are. */
  lemma AbsorbPlaces(done: Forest, cur: int, k: Forest, r: Forest, e: int)
    requires Distinct(Append(done, Cons(cur, k, r))) && e in Tops(Append(done, r))
    ensures var w := Append(done, r);
            var ke := KidsOf(w, e);
            && Distinct(w) && e in Ids(w) && Distinct(ke) && e !in Ids(ke) && Ids(ke) <= Ids(w)
            && Ids(k) !! Ids(w) && cur !in Ids(k) && cur !in Ids(w)
            && (done.Cons? ==> Last(done) in Ids(w) && Last(done) !in Ids(ke))
            && (ke.Cons? ==> Last(ke) in Ids(ke))
  {
    var w := Append(done, r);
    AppendFacts(done, Cons(cur, k, r));
    AppendFacts(done, r);
    TopsAreIds(w);
    KidsOfFacts(w, e);
    if done.Cons? {
      LastInIds(done);
      LastIsTop(done);
      TopsAppend(done, r);
      RootNotInside(w, e, Last(done));
    }
    if KidsOf(w, e).Cons? {
      LastInIds(KidsOf(w, e));
    }
  }

  /** The links after the current thread (its children, when it is a dummy) has gone below e. */
  lemma {:induction false} AbsorbLinks(child: seq<int>, sib: seq<int>, child': seq<int>, sib': seq<int>, root: int,
                                       done: Forest, cur: int, k: Forest, r: Forest, e: int, x: Forest, head: int)
    requires var f := Append(done, Cons(cur, k, r)); Chain(child, sib, root, f) && Distinct(f)
    requires var w := Append(done, r); Distinct(w) && e in Ids(w) && e in Tops(w)
    requires |child'| == |child| && |sib'| == |sib| && 0 <= e < |child| && 0 <= cur < |child| && cur < |sib|
    // x is the current thread itself or the list of its children, entered at head
    requires if x == k then head == child[cur]
             else x == Cons(cur, k, Nil) && head == cur && child'[cur] == child[cur] && sib'[cur] == NIL
    requires var ke := KidsOf(Append(done, r), e);
             && (ke.Nil? ==> child'[e] == head)
             && (ke.Cons? ==> child'[e] == child[e] && 0 <= Last(ke) < |sib| && sib'[Last(ke)] == head)
             && (done.Cons? ==> 0 <= Last(done) < |sib| && sib'[Last(done)] == sib[cur])
             && (forall y :: 0 <= y < |child| && y != e && y != cur ==> child'[y] == child[y])
             && (forall y :: 0 <= y < |sib| && y != cur && (done.Cons? ==> y != Last(done))
                             && (ke.Cons? ==> y != Last(ke))
                             ==> sib'[y] == sib[y])
    ensures Chain(child', sib', if done.Nil? then sib[cur] else root,
                  SetKids(Append(done, r), e, Append(KidsOf(Append(done, r), e), x)))
  {
    hide Distinct, SetKids, KidsOf, Tops, Ids, Last;
    var w := Append(done, r);
    var ke := KidsOf(w, e);
    var root' := if done.Nil? then sib[cur] else root;
    var sib1 := if done.Nil? then sib else sib[Last(done) := sib[cur]];
    Skipped(child, sib, root, done, cur, k, r);
    AbsorbPlaces(done, cur, k, r, e);
    ChainKids(child, sib1, root', w, e);
    ChainFrame(child, sib, child', sib', child[cur], k);
    assert Chain(child', sib', head, x);
    AppendNil(ke);
    if ke.Cons? {
      ChainRetail(child, sib1, child', sib', child[e], ke, Nil, x);
    }
    ChainSetKids(child, sib1, child', sib', root', w, e, Append(ke, x));
  }

  lemma LastIsTop(f: Forest)
    requires f.Cons?
    ensures Last(f) in Tops(f)
  {
  }

  /** The list once e has been taken out of it; Elder is the sister before e. */
  lemma {:induction false} TakenOutLinks(child: seq<int>, sib: seq<int>, root: int, done: Forest, g: Forest, e: int)
    requires Chain(child, sib, root, Append(done, g)) && Distinct(Append(done, g)) && e in Tops(done)
    ensures 0 <= e < |sib|
            && (done.id != e ==> 0 <= Elder(done, e) < |sib| && Elder(done, e) != e && Elder(done, e) in Ids(done))
    ensures Chain(child, if done.id == e then sib else sib[Elder(done, e) := sib[e]],
                  if done.id == e then sib[e] else root, Append(Detach(done, e), g))
  {
    DetachAppend(done, g, e);
    AppendFacts(done, g);
    if done.id != e {
      ElderAppend(done, g, e);
      TopsAppend(done, g);
      ChainBridge(child, sib, root, Append(done, g), e);
    }
  }

  lemma ElderAppend(f: Forest, g: Forest, e: int)
    requires Distinct(f) && e in Tops(f) && f.id != e
    ensures e in Tops(Append(f, g)) && Elder(Append(f, g), e) == Elder(f, e) && Elder(f, e) in Ids(f)
  {
    assert e in Tops(f.rest);
    TopsAppend(f.rest, g);
  }

  /** The links after the filed thread e and the current one have gone under the new dummy m. */
  lemma {:induction false} PairLinks(child: seq<int>, sib: seq<int>, sib1: seq<int>, root1: int, sib': seq<int>,
                                     done: Forest, cur: int, k: Forest, r: Forest, e: int, m: int)
    requires var f := Append(done, Cons(cur, k, r));
             done.Cons? && Chain(child, sib, done.id, f) && Distinct(f) && m !in Ids(f)
    requires e in Tops(done) && |sib| == |child| == |sib1| == |sib'| && 0 <= cur < |sib| && 0 <= e < |sib|
             && 0 <= m < |sib|
    requires Chain(child, sib1, root1, Append(Detach(done, e), Cons(cur, k, r)))
    requires sib'[e] == cur && sib'[cur] == NIL && sib'[m] == sib[cur]
    requires var d := Detach(done, e);
             && (d.Cons? ==> 0 <= Last(d) < |sib| && sib'[Last(d)] == m)
             && (forall y :: y in Ids(d) && 0 <= y < |sib| && (d.Cons? ==> y != Last(d)) ==> sib'[y] == sib1[y])
             && (forall y :: 0 <= y < |sib| && y != e && y != cur && y != m && y !in Ids(d) ==> sib'[y] == sib[y])
    ensures Chain(child[m := e], sib', if Detach(done, e).Nil? then m else root1,
                  Append(Append(Detach(done, e), Paired(m, e, KidsOf(done, e), cur, k)), r))
    ensures Chain(child[m := e], sib', sib[cur], r)
  {
    var d, ke := Detach(done, e), KidsOf(done, e);
    var g := Cons(cur, k, r);
    AppendFacts(done, g);
    DetachFacts(done, e);
    TopsAreIds(done);
    KidsOfFacts(done, e);
    PairParts(child, sib, done, cur, k, r, e);
    PairChains(child, sib, done, cur, k, r, e);
    PairTail(child, sib, sib', cur, k, r, e, ke, m);
    AppendAssoc(d, Paired(m, e, ke, cur, k), r);
    if d.Cons? {
      LastInIds(d);
      ChainRetail(child, sib1, child[m := e], sib', root1, d, g, Cons(m, Cons(e, ke, Cons(cur, k, Nil)), r));
    }
  }

  /** The pieces the merge puts together, none touching another. */
  lemma {:induction false} PairApart(done: Forest, cur: int, k: Forest, r: Forest, e: int)
    requires Distinct(Append(done, Cons(cur, k, r))) && e in Tops(done)
    ensures var all := {e, cur} + Ids(KidsOf(done, e)) + Ids(k) + Ids(r);
            all <= Ids(Append(done, Cons(cur, k, r))) && all !! Ids(Detach(done, e))
    ensures {e, cur} !! Ids(KidsOf(done, e)) + Ids(k) + Ids(r) && e != cur
  {
    AppendFacts(done, Cons(cur, k, r));
    DetachFacts(done, e);
    KidsOfFacts(done, e);
    TopsAreIds(done);
  }

  lemma {:induction false} PairParts(child: seq<int>, sib: seq<int>, done: Forest, cur: int, k: Forest, r: Forest,
                                     e: int)
    requires var f := Append(done, Cons(cur, k, r)); done.Cons? && Chain(child, sib, done.id, f) && Distinct(f)
    requires e in Tops(done)
    ensures var all := {e, cur} + Ids(KidsOf(done, e)) + Ids(k) + Ids(r);
            (forall y :: y in all ==> 0 <= y < |child| && y < |sib|) && all !! Ids(Detach(done, e))
    ensures {e, cur} !! Ids(KidsOf(done, e)) + Ids(k) + Ids(r) && e != cur
  {
    hide *;
    PairApart(done, cur, k, r, e);
    ChainInRange(child, sib, done.id, Append(done, Cons(cur, k, r)));
  }

  lemma {:induction false} PairChains(child: seq<int>, sib: seq<int>, done: Forest, cur: int, k: Forest, r: Forest,
                                      e: int)
    requires var f := Append(done, Cons(cur, k, r)); done.Cons? && Chain(child, sib, done.id, f) && Distinct(f)
    requires e in Tops(done) && 0 <= e < |child| && 0 <= cur < |child| && cur < |sib|
    ensures Chain(child, sib, child[e], KidsOf(done, e)) && Chain(child, sib, child[cur], k)
            && Chain(child, sib, sib[cur], r)
  {
    var g := Cons(cur, k, r);
    ChainSuffix(child, sib, done.id, done, g);
    DetachAppend(done, g, e);
    AppendFacts(done, g);
    TopsAreIds(done);
    ChainKids(child, sib, done.id, Append(done, g), e);
  }

  /** The new dummy, the pair below it and the rest of the list. */
  lemma {:induction false} PairTail(child: seq<int>, sib: seq<int>, sib': seq<int>,
                                    cur: int, k: Forest, r: Forest, e: int, ke: Forest, m: int)
    requires |sib| == |child| == |sib'| && 0 <= cur < |sib| && 0 <= e < |sib| && 0 <= m < |sib| && e != cur && m != e
             && m != cur
    requires Chain(child, sib, child[e], ke) && Chain(child, sib, child[cur], k) && Chain(child, sib, sib[cur], r)
    requires sib'[e] == cur && sib'[cur] == NIL && sib'[m] == sib[cur] && m !in Ids(ke) + Ids(k) + Ids(r)
    requires Same(sib, sib', Ids(ke) + Ids(k) + Ids(r))
    ensures Chain(child[m := e], sib', m, Cons(m, Cons(e, ke, Cons(cur, k, Nil)), r))
    ensures Chain(child[m := e], sib', sib[cur], r)
  {
    var child' := child[m := e];
    ChainFrame(child, sib, child', sib', child[e], ke);
    ChainFrame(child, sib, child', sib', child[cur], k);
    ChainFrame(child, sib, child', sib', sib[cur], r);
    assert Chain(child', sib', cur, Cons(cur, k, Nil));
  }

  /** The elder sister of lst on the list at root. */
  method FindElder(nodes: NodeTable, root: int, lst: int, ghost f: Forest) returns (nxt: int)
    requires nodes.Sized() && Chain(nodes.next, nodes.branch, root, f) && Distinct(f) && lst in Tops(f) && f.id != lst
    ensures nxt == Elder(f, lst) && 0 <= nxt < |nodes.branch|
  {
    nxt := root;
    ghost var g := f;
    while lst != nodes.branch[nxt]
      invariant g.Cons? && Chain(nodes.next, nodes.branch, nxt, g) && Distinct(g)
      invariant lst in Tops(g) && g.id != lst && Elder(g, lst) == Elder(f, lst)
      decreases g
    {
      nxt := nodes.branch[nxt];
      g := g.rest;
    }
  }

  lemma NextInList(child: seq<int>, sib: seq<int>, p: int, g: Forest, x: Forest)
    requires g.Cons? && x.Cons? && Chain(child, sib, p, Append(g, x)) && x.id !in Ids(g)
    ensures 0 <= p < |sib| && (sib[p] == x.id <==> g.rest.Nil?)
  {
    var tail := Append(g.rest, x);
    assert Append(g, x).rest == tail;
    if g.rest.Cons? {
      assert tail.id == g.rest.id && g.rest.id in Ids(g);
    } else {
      assert tail == x;
    }
  }

  /** The node before cur, which comes right after the list d. */
  method FindLast(nodes: NodeTable, root: int, cur: int, ghost d: Forest, ghost x: Forest) returns (sis: int)
    requires nodes.Sized() && Chain(nodes.next, nodes.branch, root, Append(d, x)) && Distinct(Append(d, x))
    requires d.Cons? && x.Cons? && x.id == cur
    ensures sis == Last(d) && 0 <= sis < |nodes.branch|
  {
    sis := root;
    ghost var g := d;
    AppendFacts(d, x);
    NextInList(nodes.next, nodes.branch, root, d, x);
    while cur != nodes.branch[sis]
      invariant g.Cons? && Chain(nodes.next, nodes.branch, sis, Append(g, x)) && Last(g) == Last(d) && Ids(g) <= Ids(d)
      invariant 0 <= sis < |nodes.branch| && sis == g.id && (nodes.branch[sis] == cur <==> g.rest.Nil?)
      decreases g
    {
      sis := nodes.branch[sis];
      g := g.rest;
      NextInList(nodes.next, nodes.branch, sis, g, x);
    }
  }

  // ----- step 5C: the pass -----

  /** The nodes, the table and the loop variables hold the state s of the merge. */
  ghost predicate Merging(nodes: NodeTable, ht: HashTab, msgs: seq<Message>, root: int, sis: int, cur: int,
                          s: MergeState)
    reads nodes, ht, ht.table
  {
    && nodes.Sized() && Numbered(msgs, nodes.sc, nodes.num) && ht.Valid()
    && s.sc == nodes.sc && s.subjects == ht.contents
    && Chain(nodes.next, nodes.branch, root, Whole(s)) && Chain(nodes.next, nodes.branch, cur, s.todo)
    && sis == (if s.done.Nil? then NIL else Last(s.done))
    && MergeOk(msgs, s)
  }

  /** The state as it would be were the merge step finished, before its invariant is known. */
  ghost predicate Linkage(nodes: NodeTable, root: int, sis: int, cur: int, done: Forest, todo: Forest)
    reads nodes
  {
    && nodes.Sized()
    && Chain(nodes.next, nodes.branch, root, Append(done, todo)) && Chain(nodes.next, nodes.branch, cur, todo)
    && sis == (if done.Nil? then NIL else Last(done))
  }

  /** Make the list at head the youngest children of lst. */
  method AppendChildren(nodes: NodeTable, lst: int, head: int, ghost ke: Forest)
    requires nodes.Sized() && 0 <= lst < |nodes.next| && Chain(nodes.next, nodes.branch, nodes.next[lst], ke)
    modifies nodes`branch, nodes`next
    ensures nodes.Sized()
    ensures nodes.next == if ke.Nil? then old(nodes.next)[lst := head] else old(nodes.next)
    ensures ke.Cons? ==> 0 <= Last(ke) < |old(nodes.branch)|
    ensures nodes.branch == if ke.Nil? then old(nodes.branch) else old(nodes.branch)[Last(ke) := head]
  {
    if nodes.next[lst] != NIL {
      var y := Youngest(nodes.next, nodes.branch, nodes.next[lst], ke);
      LastInIds(ke);
      ChainInRange(nodes.next, nodes.branch, nodes.next[lst], ke);
      nodes.branch := nodes.branch[y := head];
    } else {
      nodes.next := nodes.next[lst := head];
    }
  }

  /** Take cur out of the list; its children go with it only when it is a message. */
  method RemoveCurrent(nodes: NodeTable, root: int, sis: int, cur: int) returns (root': int, cur': int)
    requires nodes.Sized() && 0 <= cur < |nodes.sc| && (sis == NIL || 0 <= sis < |nodes.sc|) && sis != cur
    modifies nodes`branch, nodes`next
    ensures nodes.Sized() && cur' == old(nodes.branch)[cur] && root' == if sis == NIL then cur' else root
    ensures nodes.next == if nodes.sc[cur] == NIL then old(nodes.next)[cur := NIL] else old(nodes.next)
    ensures nodes.branch == if sis == NIL then old(nodes.branch)[cur := NIL]
                            else old(nodes.branch)[cur := NIL][sis := cur']
  {
    cur' := nodes.branch[cur];
    nodes.branch := nodes.branch[cur := NIL];
    if nodes.sc[cur] == NIL {
      nodes.next := nodes.next[cur := NIL];
    }
    root' := root;
    if sis != NIL {
      nodes.branch := nodes.branch[sis := cur'];
    } else {
      root' := cur';
    }
  }

  /** Which nodes the two link changes touch, and that they do not interfere. */
  lemma {:induction false} AbsorbApart(s: MergeState, lst: int)
    requires s.todo.Cons? && Distinct(Whole(s)) && lst in Tops(Whole(s)) && lst != s.todo.id
    ensures var w := Append(s.done, s.todo.rest); var ke := KidsOf(w, lst);
            && Distinct(w) && lst in Tops(w) && lst in Ids(w) && s.todo.id !in Ids(w) && ke == KidsOf(Whole(s), lst)
            && (ke.Cons? ==> Last(ke) in Ids(w) && (s.done.Cons? ==> Last(ke) != Last(s.done)))
            && (s.done.Cons? ==> Last(s.done) in Ids(w))
            && Ids(w) <= Ids(Whole(s))
  {
    var w := Append(s.done, s.todo.rest);
    TakenOff(s, lst);
    TopsAreIds(w);
    AppendFacts(s.done, s.todo.rest);
    KidsOfFacts(w, lst);
    if KidsOf(w, lst).Cons? {
      LastInIds(KidsOf(w, lst));
    }
    if s.done.Cons? {
      LastInIds(s.done);
      LastIsTop(s.done);
      TopsAppend(s.done, s.todo.rest);
      RootNotInside(w, lst, Last(s.done));
    }
  }

  lemma LastOfSetKids(f: Forest, p: int, g: Forest)
    requires f.Cons?
    ensures SetKids(f, p, g).Cons? && Last(SetKids(f, p, g)) == Last(f)
  {
  }

  /** Reading the merged list off the links. */
  lemma {:induction false} AbsorbedLinkage(child: seq<int>, sib: seq<int>, root: int, done: Forest, r: Forest, e: int,
                                           ke: Forest, cur: int)
    requires Distinct(Append(done, r)) && Chain(child, sib, root, SetKids(Append(done, r), e, ke))
    requires if done.Nil? then root == cur else 0 <= Last(done) < |sib| && sib[Last(done)] == cur
    ensures Chain(child, sib, root, Append(SetKids(done, e, ke), SetKids(r, e, ke)))
    ensures Chain(child, sib, cur, SetKids(r, e, ke))
  {
    SetKidsAppend(done, r, e, ke);
    ChainSuffix(child, sib, root, SetKids(done, e, ke), SetKids(r, e, ke));
    if done.Cons? {
      LastOfSetKids(done, e, ke);
    }
  }

  /** Put x below lst: the current thread, or the children of a current dummy. */
  method AbsorbThread(nodes: NodeTable, root: int, sis: int, cur: int, lst: int, ghost s: MergeState, ghost x: Forest)
    returns (root': int, cur': int)
    requires Linkage(nodes, root, sis, cur, s.done, s.todo) && s.todo.Cons? && Distinct(Whole(s))
    requires lst in Tops(Whole(s)) && lst != cur && 0 <= cur < |nodes.sc|
    requires x == (if nodes.sc[cur] == NIL then s.todo.kids else Cons(cur, s.todo.kids, Nil))
    modifies nodes`branch, nodes`next
    ensures var s' := Absorb(s, lst, Append(KidsOf(Append(s.done, s.todo.rest), lst), x));
            Linkage(nodes, root', sis, cur', s'.done, s'.todo)
  {
    ghost var w := Append(s.done, s.todo.rest);
    ghost var n0, b0, ke := nodes.next, nodes.branch, KidsOf(w, lst);
    AbsorbApart(s, lst);
    ChainInRange(n0, b0, root, Whole(s));
    ChainKids(n0, b0, root, Whole(s), lst);
    var head := if nodes.sc[cur] == NIL then nodes.next[cur] else cur;
    AppendChildren(nodes, lst, head, ke);
    root', cur' := RemoveCurrent(nodes, root, sis, cur);
    AbsorbLinks(n0, b0, nodes.next, nodes.branch, root, s.done, cur, s.todo.kids, s.todo.rest, lst, x, head);
    AbsorbedLinkage(nodes.next, nodes.branch, root', s.done, s.todo.rest, lst, Append(ke, x), cur');
    if s.done.Cons? {
      LastOfSetKids(s.done, lst, Append(ke, x));
    }
  }

  /** Take lst, a thread already passed, out of the list. */
  method RemovePassed(nodes: NodeTable, root: int, lst: int, ghost done: Forest, ghost todo: Forest)
    returns (root': int)
    requires nodes.Sized() && Chain(nodes.next, nodes.branch, root, Append(done, todo)) && Distinct(Append(done, todo))
    requires lst in Tops(done) && todo.Cons?
    modifies nodes`branch
    ensures nodes.Sized() && 0 <= lst < |nodes.branch|
    ensures Chain(nodes.next, nodes.branch, root', Append(Detach(done, lst), todo))
    ensures nodes.branch[lst] == old(nodes.branch)[lst]
    ensures Except(old(nodes.branch), nodes.branch, Ids(Detach(done, lst)))
  {
    ghost var f := Append(done, todo);
    TakenOutLinks(nodes.next, nodes.branch, root, done, todo, lst);
    AppendFacts(done, todo);
    DetachFacts(done, lst);
    root' := root;
    if lst == root {
      root' := nodes.branch[lst];
    } else {
      ElderAppend(done, todo, lst);
      ElderStays(done, lst);
      var nxt := FindElder(nodes, root, lst, f);
      nodes.branch := nodes.branch[nxt := nodes.branch[lst]];
    }
  }

  lemma ElderStays(f: Forest, x: int)
    requires Distinct(f) && x in Tops(f) && f.id != x
    ensures Elder(f, x) in Ids(Detach(f, x))
    ensures Last(f) == x ==> Detach(f, x).Cons? && Last(Detach(f, x)) == Elder(f, x)
    ensures Last(f) != x ==> Detach(f, x).Cons? && Last(Detach(f, x)) == Last(f)
  {
    assert x in Tops(f.rest);
    TopsAreIds(f.rest);
    DetachFacts(f.kids, x);
    LastInIds(f.rest);
    if f.rest.id == x {
      if f.rest.rest.Cons? {
        LastInIds(f.rest.rest);
      }
    }
  }

  /** Where the list d, lst taken out of it, now ends. */
  lemma PassedEnd(done: Forest, x: int)
    requires Distinct(done) && x in Tops(done)
    ensures done.Cons?
    ensures Detach(done, x).Nil? <==> done.id == x && Last(done) == x
    ensures Detach(done, x).Cons? && Last(done) != x ==> Last(Detach(done, x)) == Last(done)
  {
    TopsAreIds(done.rest);
    if done.id != x {
      ElderStays(done, x);
    } else if done.rest.Cons? {
      LastInIds(done.rest);
    }
  }

  /** Put a new dummy over lst, a thread already passed, and the current thread. */
  method PairThreads(nodes: NodeTable, root: int, sis: int, cur: int, lst: int, msgs: seq<Message>, ghost s: MergeState)
    returns (root': int, sis': int, cur': int)
    requires Linkage(nodes, root, sis, cur, s.done, s.todo) && s.todo.Cons? && Distinct(Whole(s))
    requires lst in Tops(s.done) && 0 <= cur < |nodes.sc| && s.sc == nodes.sc && Between(Whole(s), 0, |nodes.sc|)
    requires Numbered(msgs, nodes.sc, nodes.num)
    modifies nodes
    ensures nodes.sc == old(nodes.sc) + [NIL] && Numbered(msgs, nodes.sc, nodes.num) && sis' == |old(nodes.sc)|
    ensures var done' := Append(Detach(s.done, lst), Paired(|s.sc|, lst, KidsOf(s.done, lst), cur, s.todo.kids));
            Linkage(nodes, root', sis', cur', done', s.todo.rest)
  {
    hide Detach, KidsOf, Ids, Distinct, Tops;
    ghost var k, r, d := s.todo.kids, s.todo.rest, Detach(s.done, lst);
    PairReady(s.done, s.todo, lst, |nodes.sc|);
    var msg := nodes.Add(NIL);
    ghost var n1, b1 := nodes.next, nodes.branch;
    ChainFrame(old(nodes.next), old(nodes.branch), n1, b1, root, Whole(s));
    HeadIsRoot(n1, b1, root, Whole(s));
    root' := RemovePassed(nodes, root, lst, s.done, s.todo);
    ghost var root1, b2 := root', nodes.branch;
    sis' := if lst == root && lst == sis then NIL else sis;
    root', cur' := LinkPair(nodes, root', sis', cur, lst, msg, d, s.todo);
    sis' := msg;
    PairLinks(n1, b1, b2, root1, nodes.branch, s.done, cur, k, r, lst, msg);
    LastAppend(d, Paired(msg, lst, KidsOf(s.done, lst), cur, k));
  }

  lemma HeadIsRoot(child: seq<int>, sib: seq<int>, root: int, f: Forest)
    requires Chain(child, sib, root, f) && f.Cons?
    ensures f.id == root
  {
  }

  /** The list d that is left of the threads passed when lst is taken out of them. */
  lemma {:induction false} PairReady(done: Forest, todo: Forest, lst: int, n: int)
    requires Distinct(Append(done, todo)) && lst in Tops(done) && todo.Cons? && Between(Append(done, todo), 0, n)
    ensures var d := Detach(done, lst);
            && Distinct(Append(d, todo)) && {lst, n} !! Ids(Append(d, todo)) && n !in Ids(Append(done, todo))
            && 0 <= lst < n && done.Cons? && Distinct(done) && Append(done, todo).Cons?
               && Append(done, todo).id == done.id
            && (d.Nil? <==> done.id == lst && Last(done) == lst)
            && (d.Cons? && Last(done) != lst ==> Last(d) == Last(done))
            && (d.Cons? ==> Last(d) in Ids(d)) && Last(done) != NIL
            && Ids(d) <= Ids(Append(d, todo)) && todo.id !in Ids(d)
  {
    AppendFacts(done, todo);
    LastInIds(done);
    PassedEnd(done, lst);
    DetachFacts(done, lst);
    TopsAreIds(done);
    AppendFacts(Detach(done, lst), todo);
    if Detach(done, lst).Cons? {
      LastInIds(Detach(done, lst));
    }
  }

  /** Link the dummy msg over lst and cur, behind the list d that is left of the threads passed. sis
      was the youngest of those before lst was taken out. */
  method LinkPair(nodes: NodeTable, root: int, sis: int, cur: int, lst: int, msg: int, ghost d: Forest,
                  ghost todo: Forest)
    returns (root': int, cur': int)
    requires nodes.Sized() && Chain(nodes.next, nodes.branch, root, Append(d, todo)) && Distinct(Append(d, todo))
    requires todo.Cons? && todo.id == cur && {lst, msg} !! Ids(Append(d, todo)) && lst != msg
    requires 0 <= lst < |nodes.branch| && 0 <= msg < |nodes.branch| && 0 <= cur < |nodes.branch|
    requires d.Nil? <==> sis == NIL
    requires d.Cons? && sis != lst ==> sis == Last(d)
    modifies nodes`branch, nodes`next
    ensures nodes.Sized() && nodes.next == old(nodes.next)[msg := lst]
    ensures cur' == old(nodes.branch)[cur] && root' == if d.Nil? then msg else root
    ensures d.Cons? ==> 0 <= Last(d) < |nodes.branch| && Last(d) in Ids(d) && nodes.branch[Last(d)] == msg
    ensures nodes.branch[lst] == cur && nodes.branch[cur] == NIL && nodes.branch[msg] == cur'
    ensures forall y :: 0 <= y < |nodes.branch| && y != lst && y != cur && y != msg && (d.Cons? ==> y != Last(d)) ==>
              nodes.branch[y] == old(nodes.branch)[y]
  {
    AppendFacts(d, todo);
    ChainInRange(nodes.next, nodes.branch, root, Append(d, todo));
    nodes.next := nodes.next[msg := lst];
    nodes.branch := nodes.branch[lst := cur];
    root' := root;
    if sis != NIL {
      LastInIds(d);
      var elder := sis;
      if sis == lst {
        ChainFrame(old(nodes.next), old(nodes.branch), nodes.next, nodes.branch, root, Append(d, todo));
        elder := FindLast(nodes, root, cur, d, todo);
      }
      nodes.branch := nodes.branch[elder := msg];
    } else {
      root' := msg;
    }
    cur' := nodes.branch[cur];
    nodes.branch := nodes.branch[cur := NIL];
    nodes.branch := nodes.branch[msg := cur'];
  }

  /** The current thread speaks through its node, and its subject is filed. */
  lemma {:induction false} CurrentThread(msgs: seq<Message>, next: seq<int>, branch: seq<int>, cur: int, s: MergeState)
    requires MergeOk(msgs, s) && s.todo.Cons? && Chain(next, branch, cur, s.todo) && |next| == |s.sc|
    ensures 0 <= cur < |s.sc|
    ensures var nxt := if s.sc[cur] == NIL then next[cur] else cur;
            SpeaksFor(msgs, s.sc, next, cur, RootOf(msgs, s.sc, cur, s.todo.kids), nxt)
    ensures var t := RootOf(msgs, s.sc, cur, s.todo.kids).subject; t != "" ==> t in s.subjects
  {
    TidyAppendBoth(s.sc, s.done, s.todo);
    AppendFacts(s.done, s.todo);
    Speaker(msgs, s.sc, next, branch, cur, s.todo);
    assert Roots(msgs, s.sc, s.todo)[0] in Roots(msgs, s.sc, s.todo);
  }

  lemma KeptLinkage(child: seq<int>, sib: seq<int>, root: int, done: Forest, cur: int, k: Forest, r: Forest)
    requires Chain(child, sib, root, Append(done, Cons(cur, k, r))) && Chain(child, sib, cur, Cons(cur, k, r))
    ensures Chain(child, sib, root, Append(Append(done, Cons(cur, k, Nil)), r)) && Chain(child, sib, sib[cur], r)
    ensures Append(done, Cons(cur, k, Nil)).Cons? && Last(Append(done, Cons(cur, k, Nil))) == cur
  {
    AppendAssoc(done, Cons(cur, k, Nil), r);
    LastAppend(done, Cons(cur, k, Nil));
  }

  /** One round of step 5C: exactly one step of the merge on trees. */
  method MergeThread(nodes: NodeTable, ht: HashTab, root: int, sis: int, cur: int, msgs: seq<Message>,
                     ghost s: MergeState)
    returns (root': int, sis': int, cur': int, ghost s': MergeState)
    requires Merging(nodes, ht, msgs, root, sis, cur, s) && s.todo.Cons? && {ht, ht.table} !! {nodes}
    modifies nodes, ht, ht.table
    ensures s' == MergeStep(msgs, s) && Merging(nodes, ht, msgs, root', sis', cur', s')
  {
    s' := MergeStep(msgs, s);
    MergeStepKeeps(msgs, s);
    CurrentThread(msgs, nodes.next, nodes.branch, cur, s);
    var nxt := if nodes.sc[cur] != NIL then cur else nodes.next[cur];
    var t := msgs[nodes.sc[nxt]].subject;
    var lst := cur;
    if t != "" {
      var _, filed := ht.Lookup(t);
      lst := filed;
    }
    if lst == cur {
      KeptLinkage(nodes.next, nodes.branch, root, s.done, cur, s.todo.kids, s.todo.rest);
      root', sis', cur' := root, cur, nodes.branch[cur];
    } else {
      root', sis', cur' := MergeInto(nodes, ht, root, sis, cur, lst, t, msgs, s);
    }
  }

  /** The current thread shares its subject t with another thread, lst. */
  method MergeInto(nodes: NodeTable, ht: HashTab, root: int, sis: int, cur: int, lst: int, t: string,
                   msgs: seq<Message>, ghost s: MergeState)
    returns (root': int, sis': int, cur': int)
    requires Merging(nodes, ht, msgs, root, sis, cur, s) && s.todo.Cons? && {ht, ht.table} !! {nodes}
    requires t != "" && t == RootOf(msgs, s.sc, cur, s.todo.kids).subject && t in s.subjects
             && s.subjects[t] == lst != cur
    requires MergeOk(msgs, MergeStep(msgs, s))
    modifies nodes, ht, ht.table
    ensures Merging(nodes, ht, msgs, root', sis', cur', MergeStep(msgs, s))
  {
    ghost var ke := KidsOf(Append(s.done, s.todo.rest), lst);
    CurrentThread(msgs, nodes.next, nodes.branch, cur, s);
    FiledIsTop(msgs, s, t);
    FiledMessage(msgs, s, lst, ke);
    if nodes.sc[lst] == NIL {
      root', cur' := AbsorbThread(nodes, root, sis, cur, lst, s,
                                  if nodes.sc[cur] == NIL then s.todo.kids else Cons(cur, s.todo.kids, Nil));
      sis' := sis;
    } else if msgs[nodes.sc[cur]].refwd && !msgs[nodes.sc[lst]].refwd {
      root', cur' := AbsorbThread(nodes, root, sis, cur, lst, s, Cons(cur, s.todo.kids, Nil));
      sis' := sis;
    } else {
      FiledIsPassed(msgs, s, lst, ke);
      AppendFacts(s.done, s.todo);
      AppendFacts(s.done, s.todo.rest);
      DetachAppend(s.done, s.todo.rest, lst);
      root', sis', cur' := PairThreads(nodes, root, sis, cur, lst, msgs, s);
      ht.Replace(t, sis');
    }
  }

  /** When the thread filed is a message, so is the current one. */
  lemma FiledMessage(msgs: seq<Message>, s: MergeState, e: int, ke: Forest)
    requires MergeOk(msgs, s) && s.todo.Cons? && e in Tops(Whole(s))
    requires var t := RootOf(msgs, s.sc, s.todo.id, s.todo.kids).subject;
             t != "" && t in s.subjects && s.subjects[t] == e
    ensures 0 <= e < |s.sc| && (s.sc[e] == NIL || 0 <= s.sc[e] < |msgs|)
    ensures s.sc[e] != NIL ==> IsMessage(s.sc, s.todo.id) && RootOf(msgs, s.sc, e, ke).refwd == msgs[s.sc[e]].refwd
  {
    TopsAreIds(Whole(s));
    assert Roots(msgs, s.sc, s.todo)[0] in Roots(msgs, s.sc, s.todo);
  }

  /** Steps 5B and 5C: merge top-level threads with the same subject. */
  method MergeSubjects(nodes: NodeTable, ht: HashTab, root: int, msgs: seq<Message>, ghost f: Forest)
    returns (root': int, ghost r: MergeState)
    requires nodes.Sized() && Numbered(msgs, nodes.sc, nodes.num) && Chain(nodes.next, nodes.branch, root, f)
    requires Distinct(f) && Tidy(nodes.sc, f) && Between(f, 0, |nodes.sc|) && ValidCache(nodes.sc, |msgs|)
    requires ht.Valid() && ht.contents == map[] && {ht, ht.table} !! {nodes}
    modifies nodes, ht, ht.table
    ensures ht.Valid() && nodes.Sized() && Numbered(msgs, nodes.sc, nodes.num)
    ensures exists m ::
              FiledBest(Roots(msgs, old(nodes.sc), f), m) && r == MergeAll(msgs, MergeState(Nil, f, m, old(nodes.sc)))
    ensures r.sc == nodes.sc && r.subjects == ht.contents && Chain(nodes.next, nodes.branch, root', r.done)
    ensures MergeOk(msgs, r) && Kept(MergeState(Nil, f, map[], old(nodes.sc)), r)
    ensures SubjectsDiffer(Roots(msgs, r.sc, r.done))
  {
    FileSubjects(nodes, ht, root, msgs, f);
    ghost var s := MergeState(Nil, f, ht.contents, nodes.sc);
    ghost var s0 := s;
    RootsDiffer(msgs, nodes.sc, f);
    FiledIsOk(Roots(msgs, nodes.sc, f), ht.contents, nodes.sc);
    MergeAllFacts(msgs, s);
    var sis, cur := NIL, root;
    root' := root;
    while cur != NIL
      invariant Merging(nodes, ht, msgs, root', sis, cur, s) && MergeAll(msgs, s) == MergeAll(msgs, s0)
      decreases |Tops(s.todo)|
    {
      MergeStepShorter(msgs, s);
      root', sis, cur, s := MergeThread(nodes, ht, root', sis, cur, msgs, s);
    }
    r := s;
    AppendNil(r.done);
  }
}
