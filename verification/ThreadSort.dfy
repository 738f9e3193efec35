/** Steps 4 and 6 of REFERENCES threading: sorting sister lists by date through one scratch array. */
module ThreadSort {
  import opened Arrange
  import opened Containers
  import opened Forests
  import opened Linking
  import opened Prune
  import opened ThreadNodes

  // ----- dates -----

  /** The date a node sorts by: its message's, or that of a dummy's eldest child. */
  function KeyOf(sc: seq<int>, next: seq<int>, dates: seq<nat>, x: int): nat {
    if !(0 <= x < |sc| && x < |next|) then 0
    else if 0 <= sc[x] < |dates| then dates[sc[x]]
    else if !(0 <= next[x] < |sc| && 0 <= sc[next[x]] < |dates|) then 0
    else dates[sc[next[x]]]
  }

  /** The same date read off the forest. */
  ghost function DateOf(sc: seq<int>, dates: seq<nat>, id: int, kids: Forest): nat {
    if 0 <= id < |sc| && 0 <= sc[id] < |dates| then dates[sc[id]]
    else if kids.Cons? && 0 <= kids.id < |sc| && 0 <= sc[kids.id] < |dates| then dates[sc[kids.id]]
    else 0
  }

  /** Every sister list, at every level, is in date order. */
  ghost predicate DateSorted(sc: seq<int>, dates: seq<nat>, f: Forest) {
    match f
    case Nil => true
    case Cons(id, k, r) =>
      && DateSorted(sc, dates, k)
      && DateSorted(sc, dates, r)
      && (r.Cons? ==> DateOf(sc, dates, id, k) <= DateOf(sc, dates, r.id, r.kids))
  }

  /** The list itself is in date order, whatever hangs below it. */
  ghost predicate TopsSorted(sc: seq<int>, dates: seq<nat>, f: Forest) {
    match f
    case Nil => true
    case Cons(id, k, r) =>
      && TopsSorted(sc, dates, r)
      && (r.Cons? ==> DateOf(sc, dates, id, k) <= DateOf(sc, dates, r.id, r.kids))
  }

  /** In a sorted list no later entry has an earlier date; so a dummy is dated by its earliest child. */
  lemma {:induction false} SortedFirst(sc: seq<int>, dates: seq<nat>, f: Forest, x: int)
    requires DateSorted(sc, dates, f) && Distinct(f) && x in Tops(f)
    ensures DateOf(sc, dates, f.id, f.kids) <= DateOf(sc, dates, x, KidsOf(f, x))
    decreases f
  {
    TopsAreIds(f.rest);
    if x != f.id {
      SortedFirst(sc, dates, f.rest, x);
    }
  }

  // ----- sorting keeps families together -----

  /** f' is f with sister lists reordered, at any level: everybody keeps mother and children. */
  ghost predicate SameFamilies(f: Forest, f': Forest) {
    && Distinct(f) && Distinct(f') && Ids(f') == Ids(f)
    && (forall y :: y in Tops(f') <==> y in Tops(f))
    && (forall x, y :: y in Tops(KidsOf(f', x)) <==> y in Tops(KidsOf(f, x)))
  }

  lemma SameFamiliesTrans(f: Forest, g: Forest, h: Forest)
    requires SameFamilies(f, g) && SameFamilies(g, h)
    ensures SameFamilies(f, h)
  {
  }

  /** What KidsOf finds after the children of p have been replaced. */
  lemma {:induction false} KidsOfSetKids(f: Forest, p: int, g: Forest, x: int)
    requires Distinct(f) && Distinct(g) && p in Ids(f) && Ids(g) == Ids(KidsOf(f, p))
    ensures KidsOf(SetKids(f, p, g), x) ==
            if x == p then g
            else if x in Ids(g) then KidsOf(g, x)
            else if p in Ids(KidsOf(f, x)) then SetKids(KidsOf(f, x), p, g)
            else KidsOf(f, x)
    decreases f
  {
    KidsOfFacts(f.kids, p);
    KidsOfFacts(f.rest, p);
    SetKidsFacts(f.kids, p, g);
    SetKidsFacts(f.rest, p, g);
    KidsOfFacts(f.kids, x);
    KidsOfFacts(f.rest, x);
    KidsOfFacts(g, x);
    if p in Ids(f.kids) {
      KidsOfSetKids(f.kids, p, g, x);
    } else if p in Ids(f.rest) {
      KidsOfSetKids(f.rest, p, g, x);
    }
  }

  /** Reordering below p reorders the forest. */
  lemma SetKidsFamilies(f: Forest, p: int, g: Forest)
    requires Distinct(f) && p in Ids(f) && SameFamilies(KidsOf(f, p), g)
    ensures SameFamilies(f, SetKids(f, p, g))
  {
    var f' := SetKids(f, p, g);
    SetKidsFacts(f, p, g);
    KidsOfFacts(f, p);
    forall x, y
      ensures y in Tops(KidsOf(f', x)) <==> y in Tops(KidsOf(f, x))
    {
      KidsOfSetKids(f, p, g, x);
      if x in Ids(g) && x != p {
        KidsOfKids(f, p, x);
      } else if x != p && p in Ids(KidsOf(f, x)) {
        KidsOfFacts(f, x);
        SetKidsFacts(KidsOf(f, x), p, g);
      }
    }
  }

  /** Listing the same tops in another order reorders the forest. */
  lemma ArrangedFamilies(order: seq<int>, f: Forest)
    requires Distinct(f) && multiset(order) == multiset(Tops(f))
    ensures NoRepeat(order) && (forall x :: x in order <==> x in Tops(f))
    ensures SameFamilies(f, Arranged(order, f))
  {
    PermutationFacts(order, f);
    ArrangedFacts(order, f);
  }

  lemma PermutationFacts(order: seq<int>, f: Forest)
    requires Distinct(f) && multiset(order) == multiset(Tops(f))
    ensures NoRepeat(order) && (forall x :: x in order <==> x in Tops(f))
  {
    forall x
      ensures x in order <==> x in Tops(f)
    {
      assert x in order <==> x in multiset(order);
      assert x in Tops(f) <==> x in multiset(Tops(f));
    }
    forall i, j | 0 <= i < j < |order|
      ensures order[i] != order[j]
    {
      TopsOnce(f, order[i]);
      TwiceCounted(order, i, j);
    }
  }

  lemma TwiceCounted(s: seq<int>, i: nat, j: nat)
    requires i < j < |s|
    ensures s[i] == s[j] ==> multiset(s)[s[i]] >= 2
  {
    assert s == s[..j] + [s[j]] + s[j + 1..];
    assert s[..j][i] == s[i];
    assert s[i] in multiset(s[..j]);
  }

  // ----- the sorting itself -----

  predicate KeySorted(s: seq<int>, sc: seq<int>, next: seq<int>, dates: seq<nat>) {
    forall i, j :: 0 <= i < j < |s| ==> KeyOf(sc, next, dates, s[i]) <= KeyOf(sc, next, dates, s[j])
  }

  function Insert(x: int, s: seq<int>, sc: seq<int>, next: seq<int>, dates: seq<nat>): (r: seq<int>)
    requires KeySorted(s, sc, next, dates)
    ensures multiset(r) == multiset{x} + multiset(s) && KeySorted(r, sc, next, dates)
    ensures r != [] && (r[0] == x || (s != [] && r[0] == s[0]))
  {
    if s == [] || KeyOf(sc, next, dates, x) <= KeyOf(sc, next, dates, s[0]) then [x] + s
    else
      var rest := Insert(x, s[1..], sc, next, dates);
      assert s == [s[0]] + s[1..];
      InsertedBelow(s[0], x, rest, s, sc, next, dates);
      [s[0]] + rest
  }

  lemma InsertedBelow(h: int, x: int, rest: seq<int>, s: seq<int>, sc: seq<int>, next: seq<int>, dates: seq<nat>)
    requires s != [] && h == s[0] && KeySorted(s, sc, next, dates)
    requires KeyOf(sc, next, dates, h) <= KeyOf(sc, next, dates, x)
    requires multiset(rest) == multiset{x} + multiset(s[1..])
    ensures forall j :: 0 <= j < |rest| ==> KeyOf(sc, next, dates, h) <= KeyOf(sc, next, dates, rest[j])
  {
    forall j | 0 <= j < |rest|
      ensures KeyOf(sc, next, dates, h) <= KeyOf(sc, next, dates, rest[j])
    {
      assert rest[j] in multiset(rest);
      if rest[j] != x {
        assert rest[j] in multiset(s[1..]);
        var k :| 0 <= k < |s[1..]| && s[1..][k] == rest[j];
        assert s[k + 1] == rest[j];
      }
    }
  }

  function InDateOrder(s: seq<int>, sc: seq<int>, next: seq<int>, dates: seq<nat>): (r: seq<int>)
    ensures multiset(r) == multiset(s) && KeySorted(r, sc, next, dates)
  {
    if s == [] then []
    else
      assert s == [s[0]] + s[1..];
      Insert(s[0], InDateOrder(s[1..], sc, next, dates), sc, next, dates)
  }

  /** Stands for qsort: only that the result is some date-sorted permutation is promised. */
  method Qsort(tc: array<int>, n: nat, sc: seq<int>, next: seq<int>, dates: seq<nat>)
    requires n <= tc.Length
    modifies tc
    ensures multiset(tc[..n]) == multiset(old(tc[..n]))
    ensures KeySorted(tc[..n], sc, next, dates)
  {
    var s := InDateOrder(tc[..n], sc, next, dates);
    assert |s| == |multiset(s)| == n by {
      assert |multiset(tc[..n])| == n;
    }
    for i := 0 to n
      invariant tc[..i] == s[..i]
    {
      tc[i] := s[i];
    }
    assert s[..n] == s;
  }

  /** Sister links rewritten to follow order. */
  lemma {:induction false} RelinkedChain(child: seq<int>, sib: seq<int>, f: Forest, order: seq<int>)
    requires Distinct(f) && order != [] && forall x :: x in order ==> x in Tops(f)
    requires forall x :: x in Tops(f) ==> 0 <= x < |child| && x < |sib| && Chain(child, sib, child[x], KidsOf(f, x))
    requires forall m :: 0 <= m < |order| - 1 ==> 0 <= order[m] < |sib| && sib[order[m]] == order[m + 1]
    requires 0 <= order[|order| - 1] < |sib| && sib[order[|order| - 1]] == NIL
    ensures Chain(child, sib, order[0], Arranged(order, f))
    decreases |order|
  {
    assert order[0] in Tops(f);
    if |order| > 1 {
      forall x | x in order[1..]
        ensures x in Tops(f)
      {
        assert x in order;
      }
      RelinkedChain(child, sib, f, order[1..]);
    } else {
      assert order[1..] == [];
    }
  }

  lemma {:induction false} ArrangedAgain(f: Forest, v: Forest)
    requires Distinct(v) && Distinct(f) && forall x :: x in Tops(f) ==> KidsOf(v, x) == KidsOf(f, x)
    ensures Arranged(Tops(f), v) == f
    decreases f
  {
    if f.Cons? {
      TopsAreIds(f.rest);
      forall x | x in Tops(f.rest)
        ensures KidsOf(v, x) == KidsOf(f.rest, x)
      {
        assert x in Tops(f);
      }
      assert f.id in Tops(f);
      assert Tops(f)[1..] == Tops(f.rest);
      ArrangedAgain(f.rest, v);
    }
  }

  /** The key read off the links is the date read off the forest. */
  lemma {:induction false} KeyIsDate(sc: seq<int>, next: seq<int>, branch: seq<int>, dates: seq<nat>, p: int, f: Forest)
    requires Chain(next, branch, p, f) && f.Cons? && |next| == |sc|
    ensures KeyOf(sc, next, dates, f.id) == DateOf(sc, dates, f.id, f.kids)
  {
  }

  lemma {:induction false} KeysAreDates(sc: seq<int>, next: seq<int>, branch: seq<int>, dates: seq<nat>, p: int,
                                        f: Forest)
    requires Chain(next, branch, p, f) && |next| == |sc| && KeySorted(Tops(f), sc, next, dates)
    ensures TopsSorted(sc, dates, f)
    decreases f
  {
    if f.Cons? {
      var s := Tops(f);
      assert s[1..] == Tops(f.rest);
      forall i, j | 0 <= i < j < |s| - 1
        ensures KeyOf(sc, next, dates, s[1..][i]) <= KeyOf(sc, next, dates, s[1..][j])
      {
        assert s[1..][i] == s[i + 1] && s[1..][j] == s[j + 1];
      }
      KeysAreDates(sc, next, branch, dates, branch[f.id], f.rest);
      KeyIsDate(sc, next, branch, dates, p, f);
      if f.rest.Cons? {
        KeyIsDate(sc, next, branch, dates, branch[f.id], f.rest);
        assert s[0] == f.id && s[1] == f.rest.id;
        assert KeyOf(sc, next, dates, s[0]) <= KeyOf(sc, next, dates, s[1]);
      }
    }
  }

  /** Load the sister list at thr into tc, in order. */
  method LoadLevel(nodes: NodeTable, tc: array<int>, thr: int, ghost f: Forest) returns (i: nat)
    requires nodes.Sized() && Chain(nodes.next, nodes.branch, thr, f) && |Tops(f)| <= tc.Length
    modifies tc
    ensures i == |Tops(f)| && tc[..i] == Tops(f)
  {
    i := 0;
    var cur := thr;
    ghost var done, todo := Nil, f;
    while cur != NIL
      invariant Chain(nodes.next, nodes.branch, cur, todo) && Append(done, todo) == f
      invariant i == |Tops(done)| <= tc.Length && tc[..i] == Tops(done)
      decreases todo
    {
      ghost var one := Cons(cur, todo.kids, Nil);
      AppendAssoc(done, one, todo.rest);
      TopsAppend(done, todo);
      TopsAppend(done, one);
      assert Tops(one) == [cur];
      tc[i] := cur;
      i := i + 1;
      done, todo := Append(done, one), todo.rest;
      cur := nodes.branch[cur];
    }
    AppendNil(done);
  }

  /** Make the sister links follow the first i entries of tc. */
  method Relink(nodes: NodeTable, tc: array<int>, i: nat, ghost order: seq<int>)
    requires 1 <= i <= tc.Length && order == tc[..i] && NoRepeat(order)
    requires forall m :: 0 <= m < |order| ==> 0 <= order[m] < |nodes.branch|
    modifies nodes`branch
    ensures |nodes.branch| == |old(nodes.branch)|
    ensures forall x :: 0 <= x < |nodes.branch| && x !in order ==> nodes.branch[x] == old(nodes.branch)[x]
    ensures forall m :: 0 <= m < |order| - 1 ==> nodes.branch[order[m]] == order[m + 1]
    ensures nodes.branch[order[|order| - 1]] == NIL
  {
    var j := 0;
    while j < i - 1
      invariant 0 <= j < i && |nodes.branch| == |old(nodes.branch)|
      invariant forall m :: 0 <= m < j ==> nodes.branch[order[m]] == order[m + 1]
      invariant forall x :: 0 <= x < |nodes.branch| && x !in order ==> nodes.branch[x] == old(nodes.branch)[x]
    {
      assert order[j] in order;
      nodes.branch := nodes.branch[tc[j] := tc[j + 1]];
      j := j + 1;
    }
    assert order[j] in order;
    nodes.branch := nodes.branch[tc[j] := NIL];
  }

  /** Sort one sister list by date: load, sort, relink. */
  method SortLevel(nodes: NodeTable, tc: array<int>, thr: int, dates: seq<nat>, ghost f: Forest)
    returns (head: int, ghost f': Forest)
    requires nodes.Sized() && Chain(nodes.next, nodes.branch, thr, f) && Distinct(f) && |Tops(f)| <= tc.Length
    modifies tc, nodes`branch
    ensures nodes.Sized() && Chain(nodes.next, nodes.branch, head, f')
            && Except(old(nodes.branch), nodes.branch, Ids(f))
    ensures f' == Arranged(Tops(f'), f) && multiset(Tops(f')) == multiset(Tops(f))
    ensures KeySorted(Tops(f'), nodes.sc, nodes.next, dates)
  {
    hide Chain, Distinct, Arranged, Tops, Ids, NoRepeat;
    var i := LoadLevel(nodes, tc, thr, f);
    head, f' := thr, f;
    ArrangedAgain(f, f);
    TopsAreIds(f);
    ChainInRange(nodes.next, nodes.branch, thr, f);
    if i > 1 {
      Qsort(tc, i, nodes.sc, nodes.next, dates);
      ghost var order := tc[..i];
      PermutationFacts(order, f);
      forall m | 0 <= m < |order|
        ensures 0 <= order[m] < |nodes.branch|
      {
        assert order[m] in order;
      }
      Relink(nodes, tc, i, order);
      head := tc[0];
      f' := Arranged(order, f);
      ArrangedTops(order, f);
      Relinked(nodes.next, old(nodes.branch), nodes.branch, thr, f, order);
    }
  }

  lemma Relinked(child: seq<int>, sib: seq<int>, sib': seq<int>, p: int, f: Forest, order: seq<int>)
    requires Chain(child, sib, p, f) && Distinct(f) && |sib'| == |sib| && order != []
    requires forall x :: x in order <==> x in Tops(f)
    requires forall x :: 0 <= x < |sib| && x !in order ==> sib'[x] == sib[x]
    requires forall m :: 0 <= m < |order| ==> 0 <= order[m] < |sib|
    requires forall m :: 0 <= m < |order| - 1 ==> sib'[order[m]] == order[m + 1]
    requires sib'[order[|order| - 1]] == NIL
    ensures Chain(child, sib', order[0], Arranged(order, f))
  {
    TopsAreIds(f);
    forall x | x in Tops(f)
      ensures 0 <= x < |child| && x < |sib'| && Chain(child, sib', child[x], KidsOf(f, x))
    {
      ChainKids(child, sib, p, f, x);
      forall y | y in Ids(KidsOf(f, x))
        ensures y !in Tops(f)
      {
        if y in Tops(f) {
          RootNotInside(f, x, y);
        }
      }
      ChainFrame(child, sib, child, sib', child[x], KidsOf(f, x));
    }
    RelinkedChain(child, sib', f, order);
  }

  // ----- the whole tree -----

  /** In a tidy forest there are at least as many messages as tops. */
  lemma {:induction false} TopsAreFew(sc: seq<int>, f: Forest)
    requires Tidy(sc, f)
    ensures |Tops(f)| <= |MessagesIn(sc, f)|
    decreases f
  {
    if f.Cons? {
      TopsAreFew(sc, f.rest);
      if !IsMessage(sc, f.id) {
        assert |MessagesIn(sc, f.kids)| > 0;
      }
    }
  }

  lemma AllMessagesTidy(sc: seq<int>, f: Forest)
    requires AllMessages(sc, f)
    ensures Tidy(sc, f)
  {
  }

  /** Each top of f has its children sorted. */
  ghost predicate KidsSorted(sc: seq<int>, dates: seq<nat>, f: Forest) {
    match f
    case Nil => true
    case Cons(_, k, r) => DateSorted(sc, dates, k) && KidsSorted(sc, dates, r)
  }

  lemma KidsSortedAppend(sc: seq<int>, dates: seq<nat>, f: Forest, g: Forest)
    ensures KidsSorted(sc, dates, Append(f, g)) <==> KidsSorted(sc, dates, f) && KidsSorted(sc, dates, g)
  {
  }

  lemma KidsSortedAt(sc: seq<int>, dates: seq<nat>, f: Forest, x: int)
    requires Distinct(f) && KidsSorted(sc, dates, f) && x in Tops(f)
    ensures DateSorted(sc, dates, KidsOf(f, x))
  {
    TopsAreIds(f.rest);
  }

  /** Sorted children and tops in key order make a sorted forest. */
  lemma {:induction false} ArrangedSorted(sc: seq<int>, next: seq<int>, branch: seq<int>, dates: seq<nat>, p: int,
                                          f: Forest, order: seq<int>)
    requires Distinct(f) && KidsSorted(sc, dates, f) && Chain(next, branch, p, f) && |next| == |sc|
    requires forall x :: x in order ==> x in Tops(f)
    requires KeySorted(order, sc, next, dates)
    ensures DateSorted(sc, dates, Arranged(order, f))
    decreases |order|
  {
    if order != [] {
      var rest := order[1..];
      forall x | x in rest
        ensures x in Tops(f)
      {
        assert x in order;
      }
      ArrangedSorted(sc, next, branch, dates, p, f, rest);
      assert order[0] in order;
      TopsAreIds(f);
      KidsSortedAt(sc, dates, f, order[0]);
      ChainKids(next, branch, p, f, order[0]);
      if rest != [] {
        assert rest[0] == order[1] && order[1] in order;
        ChainKids(next, branch, p, f, order[1]);
      }
    }
  }

  lemma {:induction false} SetKidsInPlace(done: Forest, cur: int, k: Forest, r: Forest, g: Forest)
    requires Distinct(Append(done, Cons(cur, k, r)))
    ensures SetKids(Append(done, Cons(cur, k, r)), cur, g) == Append(done, Cons(cur, g, r))
    ensures KidsOf(Append(done, Cons(cur, k, r)), cur) == k
    decreases done
  {
    AppendFacts(done, Cons(cur, k, r));
    if done.Cons? {
      SetKidsInPlace(done.rest, cur, k, r, g);
      SetKidsFacts(done.kids, cur, g);
    } else {
      SetKidsFacts(r, cur, g);
    }
  }

  /** Reordering keeps a forest tidy. */
  lemma TidyFamilies(sc: seq<int>, f: Forest, f': Forest)
    requires Tidy(sc, f) && SameFamilies(f, f')
    ensures Tidy(sc, f')
  {
    forall x | x in Tops(f')
      ensures AllMessages(sc, KidsOf(f', x)) && (!IsMessage(sc, x) ==> |Tops(KidsOf(f', x))| >= 2)
    {
      TidyTop(sc, f, x);
      KidsIdsFamilies(f, f', x);
      AllMessagesIds(sc, KidsOf(f, x));
      AllMessagesIds(sc, KidsOf(f', x));
      KidsOfFacts(f, x);
      KidsOfFacts(f', x);
      if !IsMessage(sc, x) {
        var t, t' := Tops(KidsOf(f, x)), Tops(KidsOf(f', x));
        TwoTops(KidsOf(f, x));
        assert t[0] in t && t[1] in t;
        assert t[0] in t' && t[1] in t';
      }
    }
    TidyFromTops(sc, f');
  }

  lemma TwoTops(f: Forest)
    requires Distinct(f) && f.Cons? && f.rest.Cons?
    ensures |Tops(f)| >= 2 && Tops(f)[0] != Tops(f)[1]
  {
    assert Tops(f) == [f.id] + ([f.rest.id] + Tops(f.rest.rest));
  }

  lemma TidyTop(sc: seq<int>, f: Forest, x: int)
    requires Tidy(sc, f) && Distinct(f) && x in Tops(f)
    ensures AllMessages(sc, KidsOf(f, x)) && (!IsMessage(sc, x) ==> KidsOf(f, x).Cons? && KidsOf(f, x).rest.Cons?)
  {
    TopsAreIds(f.rest);
  }

  lemma {:induction false} TidyFromTops(sc: seq<int>, f: Forest)
    requires Distinct(f)
    requires forall x :: x in Tops(f) ==>
      AllMessages(sc, KidsOf(f, x)) && (!IsMessage(sc, x) ==> |Tops(KidsOf(f, x))| >= 2)
    ensures Tidy(sc, f)
    decreases f
  {
    if f.Cons? {
      TopsAreIds(f.rest);
      assert f.id in Tops(f);
      forall x | x in Tops(f.rest)
        ensures KidsOf(f, x) == KidsOf(f.rest, x) && x in Tops(f)
      {
      }
      TidyFromTops(sc, f.rest);
      if |Tops(f.kids)| >= 2 {
        assert f.kids.Cons?;
        assert Tops(f.kids) == [f.kids.id] + Tops(f.kids.rest);
      }
    }
  }

  /** Reordering keeps the set of descendants. */
  lemma {:induction false} KidsIdsFamilies(f: Forest, f': Forest, x: int)
    requires SameFamilies(f, f')
    ensures Ids(KidsOf(f', x)) == Ids(KidsOf(f, x))
  {
    forall y
      ensures y in Ids(KidsOf(f', x)) <==> y in Ids(KidsOf(f, x))
    {
      if y in Ids(KidsOf(f, x)) {
        BelowFamilies(f, f', x, y);
      }
      if y in Ids(KidsOf(f', x)) {
        BelowFamilies(f', f, x, y);
      }
    }
  }

  /** Descend one family at a time. */
  lemma {:induction false} BelowFamilies(f: Forest, f': Forest, x: int, y: int)
    requires SameFamilies(f, f') && y in Ids(KidsOf(f, x))
    ensures y in Ids(KidsOf(f', x))
    decreases Size(KidsOf(f, x))
  {
    KidsOfFacts(f, x);
    KidsOfFacts(f', x);
    var z := UnderSomeTop(KidsOf(f, x), y);
    assert z in Tops(KidsOf(f', x));
    TopsAreIds(KidsOf(f', x));
    TopsAreIds(KidsOf(f, x));
    if y != z {
      KidsOfKids(f, x, z);
      KidsOfKids(f', x, z);
      SizeBelow(KidsOf(f, x), z);
      BelowFamilies(f, f', z, y);
      KidsOfFacts(KidsOf(f', x), z);
    }
  }

  lemma SizeBelow(f: Forest, z: int)
    requires z in Ids(f)
    ensures Size(KidsOf(f, z)) < Size(f)
  {
  }

  /** mail_thread_sort: sort every sister list of the tree by date. tc is overwritten at each level;
      its length needs to cover no more than the messages of the tree. */
  method MailThreadSort(nodes: NodeTable, tc: array<int>, thr: int, dates: seq<nat>, ghost f: Forest)
    returns (head: int, ghost f': Forest)
    requires nodes.Sized() && Chain(nodes.next, nodes.branch, thr, f) && Distinct(f)
    requires Tidy(nodes.sc, f) && |MessagesIn(nodes.sc, f)| <= tc.Length
    modifies tc, nodes`branch, nodes`next
    ensures nodes.Sized() && Chain(nodes.next, nodes.branch, head, f')
    ensures SameFamilies(f, f') && DateSorted(nodes.sc, dates, f')
    ensures Except(old(nodes.branch), nodes.branch, Ids(f)) && Except(old(nodes.next), nodes.next, Ids(f))
    decreases f, 1
  {
    ghost var f1 := SortKids(nodes, tc, thr, dates, f);
    ghost var b1 := nodes.branch;
    TopsAreFew(nodes.sc, f);
    head, f' := SortLevel(nodes, tc, thr, dates, f1);
    ArrangedFamilies(Tops(f'), f1);
    SameFamiliesTrans(f, f1, f');
    ArrangedSorted(nodes.sc, nodes.next, b1, dates, thr, f1, Tops(f'));
  }

  /** The first loop of mail_thread_sort: sort below each node of the list. */
  method SortKids(nodes: NodeTable, tc: array<int>, thr: int, dates: seq<nat>, ghost f: Forest)
    returns (ghost f': Forest)
    requires nodes.Sized() && Chain(nodes.next, nodes.branch, thr, f) && Distinct(f)
    requires Tidy(nodes.sc, f) && |MessagesIn(nodes.sc, f)| <= tc.Length
    modifies tc, nodes`branch, nodes`next
    ensures nodes.Sized() && Chain(nodes.next, nodes.branch, thr, f')
    ensures SameFamilies(f, f') && Tops(f') == Tops(f) && KidsSorted(nodes.sc, dates, f')
    ensures Except(old(nodes.branch), nodes.branch, Ids(f)) && Except(old(nodes.next), nodes.next, Ids(f))
    decreases f, 0, 1
  {
    var cur := thr;
    ghost var done, todo := Nil, f;
    f' := f;
    while cur != NIL
      invariant nodes.Sized() && f' == Append(done, todo) && (todo == f || todo < f)
      invariant Chain(nodes.next, nodes.branch, thr, f') && Chain(nodes.next, nodes.branch, cur, todo)
      invariant SameFamilies(f, f') && Tops(f') == Tops(f) && KidsSorted(nodes.sc, dates, done)
      invariant Tidy(nodes.sc, todo) && |MessagesIn(nodes.sc, todo)| <= tc.Length
      invariant Except(old(nodes.branch), nodes.branch, Ids(f)) && Except(old(nodes.next), nodes.next, Ids(f))
      decreases todo
    {
      ghost var g := SortBelow(nodes, tc, thr, cur, dates, done, todo, f);
      ghost var one := Cons(cur, g, Nil);
      AppendFacts(done, todo);
      SetKidsInPlace(done, cur, todo.kids, todo.rest, g);
      SetKidsFacts(f', cur, g);
      AppendAssoc(done, one, todo.rest);
      SetKidsFamilies(f', cur, g);
      KidsSortedAppend(nodes.sc, dates, done, one);
      done, todo := Append(done, one), todo.rest;
      SameFamiliesTrans(f, f', Append(done, todo));
      f' := Append(done, todo);
      cur := nodes.branch[cur];
    }
    AppendNil(done);
  }

  /** Sort below the node cur, the first of todo. */
  method SortBelow(nodes: NodeTable, tc: array<int>, ghost thr: int, cur: int, dates: seq<nat>,
                   ghost done: Forest, ghost todo: Forest, ghost f: Forest)
    returns (ghost g: Forest)
    requires nodes.Sized() && (todo == f || todo < f) && todo.Cons? && Distinct(Append(done, todo))
    requires Chain(nodes.next, nodes.branch, thr, Append(done, todo)) && Chain(nodes.next, nodes.branch, cur, todo)
    requires Tidy(nodes.sc, todo) && |MessagesIn(nodes.sc, todo)| <= tc.Length
    modifies tc, nodes`branch, nodes`next
    ensures nodes.Sized() && SameFamilies(todo.kids, g) && DateSorted(nodes.sc, dates, g)
    ensures Chain(nodes.next, nodes.branch, thr, Append(done, Cons(cur, g, todo.rest)))
    ensures Chain(nodes.next, nodes.branch, cur, Cons(cur, g, todo.rest))
    ensures Except(old(nodes.branch), nodes.branch, Ids(todo)) && Except(old(nodes.next), nodes.next, Ids(todo))
    decreases f, 0, 0
  {
    ghost var k, r := todo.kids, todo.rest;
    g := k;
    AppendFacts(done, todo);
    SameFamiliesRefl(k);
    if nodes.next[cur] != NIL {
      AllMessagesTidy(nodes.sc, k);
      var head;
      head, g := MailThreadSort(nodes, tc, nodes.next[cur], dates, k);
      ghost var n1 := nodes.next;
      nodes.next := nodes.next[cur := head];
      ChainFrame(n1, nodes.branch, nodes.next, nodes.branch, head, g);
      ChainFrame(old(nodes.next), old(nodes.branch), nodes.next, nodes.branch, nodes.branch[cur], r);
      KidsReplaced(old(nodes.next), old(nodes.branch), nodes.next, nodes.branch, thr, done, cur, k, r, g);
    }
  }

  lemma SameFamiliesRefl(f: Forest)
    requires Distinct(f)
    ensures SameFamilies(f, f)
  {
  }

  lemma KidsReplaced(child: seq<int>, sib: seq<int>, child': seq<int>, sib': seq<int>, p: int,
                     done: Forest, cur: int, k: Forest, r: Forest, g: Forest)
    requires var f := Append(done, Cons(cur, k, r)); Chain(child, sib, p, f) && Distinct(f)
    requires Except(sib, sib', Ids(k)) && Except(child, child', Ids(k) + {cur})
    requires 0 <= cur < |child'| && Chain(child', sib', child'[cur], g)
    ensures Chain(child', sib', p, Append(done, Cons(cur, g, r)))
  {
    var f := Append(done, Cons(cur, k, r));
    SetKidsInPlace(done, cur, k, r, g);
    AppendFacts(done, Cons(cur, k, r));
    ChainSetKids(child, sib, child', sib', p, f, cur, g);
  }
}
