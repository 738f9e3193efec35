/** Step 1 of REFERENCES threading: linking containers by reference chains. */
module ReferenceLinks {
  import opened Forests
  import opened Containers
  import opened HashTable
  import opened Linking
  import opened ReferenceChains

  /** The containers of v are those numbered below n. */
  ghost predicate Covers(v: Forest, n: nat) {
    forall x :: x in Ids(v) <==> 0 <= x < n
  }

  /** The table's links encode the forest v, in which every container occurs exactly once. */
  ghost predicate Encodes(t: ContainerTable, v: Forest)
    reads t
  {
    t.Sized() && Linked(t.parent, t.sibling, t.child, v) && Distinct(v) && Covers(v, |t.cache|)
  }

  /** mail_thread_check_child: is mother in the subtree of daughter? */
  method CheckChild(t: ContainerTable, mother: int, daughter: int, ghost k: Forest) returns (r: bool)
    requires t.Sized()
    requires 0 <= daughter < |t.cache| && Chain(t.child, t.sibling, t.child[daughter], k)
    ensures r <==> mother != NIL && (mother == daughter || mother in Ids(k))
    decreases Size(k)
  {
    if mother != NIL {
      if mother == daughter {
        return true;
      }
      var d := t.child[daughter];
      ghost var g := k;
      while d != NIL
        invariant Chain(t.child, t.sibling, d, g) && Size(g) <= Size(k)
        invariant mother in Ids(k) <==> mother in Ids(g)
        decreases g
      {
        var found := CheckChild(t, mother, d, g.kids);
        if found {
          return true;
        }
        d := t.sibling[d];
        g := g.rest;
      }
    }
    return false;
  }

  /** The forest after x, with everything below it, becomes the eldest child of c. */
  ghost function Eldest(v: Forest, c: int, x: int): Forest {
    var w := Detach(v, x);
    SetKids(w, c, Cons(x, KidsOf(v, x), KidsOf(w, c)))
  }

  /** The forest after x, with everything below it, becomes the youngest child of c. */
  ghost function Youngest(v: Forest, c: int, x: int): Forest {
    var w := Detach(v, x);
    SetKids(w, c, Append(KidsOf(w, c), Cons(x, KidsOf(v, x), Nil)))
  }

  /** The forest after x, with everything below it, becomes a root. */
  ghost function Rooted(v: Forest, x: int): Forest {
    Cons(x, KidsOf(v, x), Detach(v, x))
  }

  lemma ConsFacts(x: int, k: Forest, r: Forest)
    ensures Ids(Cons(x, k, r)) == {x} + Ids(k) + Ids(r) && Ids(Nil) == {} && Distinct(Nil)
    ensures Distinct(Cons(x, k, r))
            <==> x !in Ids(k) && x !in Ids(r) && Ids(k) !! Ids(r) && Distinct(k) && Distinct(r)
  {
  }

  lemma {:induction false} Rehung(v: Forest, c: int, x: int, g: Forest)
    requires Distinct(v) && c in Ids(v) && x in Ids(v) && !Within(v, x, c) && Distinct(g)
    requires Ids(g) == {x} + Ids(KidsOf(v, x)) + Ids(KidsOf(Detach(v, x), c))
    ensures Ids(SetKids(Detach(v, x), c, g)) == Ids(v) && Distinct(SetKids(Detach(v, x), c, g))
  {
    hide Detach, KidsOf, SetKids, Distinct, Ids, Tops;
    var w := Detach(v, x);
    DetachFacts(v, x);
    KidsOfFacts(v, x);
    KidsOfFacts(w, c);
    SetKidsFacts(w, c, g);
  }

  lemma MoveFacts(v: Forest, c: int, x: int)
    requires Distinct(v) && c in Ids(v) && x in Ids(v) && !Within(v, x, c)
    ensures c in Ids(Detach(v, x)) && Distinct(Detach(v, x))
    ensures Ids(Eldest(v, c, x)) == Ids(v) && Distinct(Eldest(v, c, x))
    ensures Ids(Youngest(v, c, x)) == Ids(v) && Distinct(Youngest(v, c, x))
  {
    hide Detach, KidsOf, SetKids, Append, Tops, Ids, Distinct;
    var w := Detach(v, x);
    DetachFacts(v, x);
    KidsOfFacts(v, x);
    KidsOfFacts(w, c);
    var one := Cons(x, KidsOf(v, x), Nil);
    ConsFacts(x, KidsOf(v, x), Nil);
    ConsFacts(x, KidsOf(v, x), KidsOf(w, c));
    AppendFacts(KidsOf(w, c), one);
    Rehung(v, c, x, Cons(x, KidsOf(v, x), KidsOf(w, c)));
    Rehung(v, c, x, Append(KidsOf(w, c), one));
  }

  lemma RootedFacts(v: Forest, x: int)
    requires Distinct(v) && x in Ids(v)
    ensures Ids(Rooted(v, x)) == Ids(v) && Distinct(Rooted(v, x))
  {
    DetachFacts(v, x);
    KidsOfFacts(v, x);
  }

  /** The links after the parentless nxc was made the eldest child of con. */
  lemma {:induction false} LinkEncodes(parent: seq<int>, sib: seq<int>, child: seq<int>, v: Forest, con: int, nxc: int)
    requires Linked(parent, sib, child, v) && Distinct(v) && nxc in Ids(v) && con in Ids(v) && !Within(v, nxc, con)
    requires 0 <= nxc < |sib| == |parent| == |child| && 0 <= con < |parent| && parent[nxc] == NIL
    ensures Linked(parent[nxc := con], sib[nxc := child[con]], child[con := nxc], Eldest(v, con, nxc))
  {
    var w := Detach(v, nxc);
    var kx, kc := KidsOf(v, nxc), KidsOf(w, con);
    var p', s', c' := parent[nxc := con], sib[nxc := child[con]], child[con := nxc];
    KidsLinked(parent, sib, child, v, nxc);
    MotherLists(parent, sib, child, v, nxc);
    LinkedDropRoot(parent, sib, child, v, nxc);
    DetachFacts(v, nxc);
    MoveFacts(v, con, nxc);
    KidsOfFacts(v, nxc);
    KidsOfFacts(w, con);
    KidsLinked(parent, sib, child, w, con);
    ChainFrame(child, sib, c', s', c'[nxc], kx);
    ChainFrame(child, sib, c', s', s'[nxc], kc);
    MothersFrame(parent, p', nxc, kx);
    MothersFrame(parent, p', con, kc);
    LinkedSetKids(parent, sib, child, p', s', c', w, con, Cons(nxc, kx, kc));
  }

  /** Step 1A: make nxc a child of con, unless it has a mother already or that would be a loop. */
  method LinkReference(t: ContainerTable, con: int, nxc: int, ghost v: Forest) returns (ghost v': Forest)
    requires Encodes(t, v) && con in Ids(v) && nxc in Ids(v)
    modifies t
    ensures Encodes(t, v') && t.cache == old(t.cache)
    ensures var free := old(t.parent)[nxc] == NIL && !Within(v, nxc, con);
            && v' == (if free then Eldest(v, con, nxc) else v)
            && t.parent == (if free then old(t.parent)[nxc := con] else old(t.parent))
  {
    hide Chain, Linked, Mothers, Detach, SetKids, KidsOf, Eldest;
    v' := v;
    KidsLinked(t.parent, t.sibling, t.child, v, nxc);
    if t.parent[nxc] == NIL {
      var looped := CheckChild(t, con, nxc, KidsOf(v, nxc));
      if !looped {
        LinkEncodes(t.parent, t.sibling, t.child, v, con, nxc);
        MoveFacts(v, con, nxc);
        t.parent := t.parent[nxc := con];
        t.sibling := t.sibling[nxc := t.child[con]];
        t.child := t.child[con := nxc];
        v' := Eldest(v, con, nxc);
      }
    }
  }

  /** Step 1B: cut nxc off from its mother prc. */
  method Unlink(t: ContainerTable, nxc: int, prc: int, ghost v: Forest) returns (ghost v': Forest)
    requires Encodes(t, v) && nxc in Ids(v) && 0 <= nxc < |t.parent| && prc == t.parent[nxc] != NIL
    modifies t
    ensures Encodes(t, v') && t.cache == old(t.cache)
    ensures v' == Rooted(v, nxc)
    ensures t.parent == old(t.parent)[nxc := NIL]
  {
    v' := Rooted(v, nxc);
    RootedFacts(v, nxc);
    MotherLists(t.parent, t.sibling, t.child, v, nxc);
    KidsLinked(t.parent, t.sibling, t.child, v, prc);
    KidsLinked(t.parent, t.sibling, t.child, v, nxc);
    ghost var k := KidsOf(v, prc);
    KidsOfFacts(v, prc);
    KidsOfFacts(v, nxc);
    DetachFacts(v, nxc);
    DetachIsSetKids(v, prc, nxc);
    t.parent := t.parent[nxc := NIL];
    if nxc == t.child[prc] {
      t.child := t.child[prc := t.sibling[nxc]];
    } else {
      var s := t.child[prc];
      ghost var g := k;
      while nxc != t.sibling[s]
        invariant g.Cons? && Chain(t.child, t.sibling, s, g)
        invariant nxc in Tops(g) && g.id != nxc && Elder(g, nxc) == Elder(k, nxc) && Ids(g) <= Ids(k) && Distinct(g)
        decreases g
      {
        s := t.sibling[s];
        g := g.rest;
      }
      t.sibling := t.sibling[s := t.sibling[nxc]];
    }
    ghost var s1 := t.sibling;
    t.sibling := t.sibling[nxc := NIL];
    UnlinkEncodes(old(t.parent), old(t.sibling), old(t.child), s1, t.child, v, prc, nxc);
  }

  /** The links once nxc has been taken out of the child list of prc. */
  ghost predicate TakenOut(sib: seq<int>, child: seq<int>, s1: seq<int>, c1: seq<int>, k: Forest, prc: int, nxc: int)
    requires nxc in Tops(k) && 0 <= nxc < |sib| && 0 <= prc < |child|
  {
    if k.id == nxc then s1 == sib && c1 == child[prc := sib[nxc]]
    else 0 <= Elder(k, nxc) < |sib| && c1 == child && s1 == sib[Elder(k, nxc) := sib[nxc]]
  }

  lemma SistersBridged(parent: seq<int>, sib: seq<int>, child: seq<int>, s1: seq<int>, c1: seq<int>, k: Forest,
                       prc: int, nxc: int)
    requires 0 <= nxc < |sib| && 0 <= prc < |child| && nxc in Tops(k)
    requires Chain(child, sib, child[prc], k) && Mothers(parent, prc, k) && Distinct(k) && prc !in Ids(k)
    requires TakenOut(sib, child, s1, c1, k, prc, nxc)
    ensures |s1| == |sib| && |c1| == |child|
    ensures Chain(c1, s1, c1[prc], Detach(k, nxc)) && Mothers(parent, prc, Detach(k, nxc))
    ensures Same(sib, s1, Ids(KidsOf(k, nxc))) && Except(sib, s1, Ids(k)) && Except(child, c1, {prc})
  {
    DetachFacts(k, nxc);
    MothersDetach(parent, prc, k, nxc);
    if k.id == nxc {
      ChainFrame(child, s1, c1, s1, c1[prc], Detach(k, nxc));
    } else {
      ChainBridge(child, sib, child[prc], k, nxc);
    }
  }

  /** Bridging over nxc and clearing its links leaves it a root. */
  lemma UnlinkEncodes(parent: seq<int>, sib: seq<int>, child: seq<int>, s1: seq<int>, c1: seq<int>,
                      v: Forest, prc: int, nxc: int)
    requires Linked(parent, sib, child, v) && Distinct(v) && nxc in Ids(v) && prc in Ids(v)
    requires 0 <= nxc < |sib| == |parent| == |child| && 0 <= prc < |parent|
    requires nxc in Tops(KidsOf(v, prc)) && TakenOut(sib, child, s1, c1, KidsOf(v, prc), prc, nxc)
    ensures nxc < |s1| && Linked(parent[nxc := NIL], s1[nxc := NIL], c1, Rooted(v, nxc))
  {
    hide Detach, KidsOf, SetKids, Mothers, Distinct;
    var k, kx := KidsOf(v, prc), KidsOf(v, nxc);
    var p', s' := parent[nxc := NIL], s1[nxc := NIL];
    KidsLinked(parent, sib, child, v, prc);
    KidsLinked(parent, sib, child, v, nxc);
    KidsOfFacts(v, prc);
    KidsOfFacts(v, nxc);
    TopsAreIds(k);
    DetachFacts(k, nxc);
    DetachIsSetKids(v, prc, nxc);
    ChildOfChild(v, prc, nxc);
    SistersBridged(parent, sib, child, s1, c1, k, prc, nxc);
    ChainFrame(c1, s1, c1, s', c1[prc], Detach(k, nxc));
    MothersFrame(parent, p', prc, Detach(k, nxc));
    LinkedSetKids(parent, sib, child, p', s', c1, v, prc, Detach(k, nxc));
    ChainFrame(child, sib, c1, s', c1[nxc], kx);
    MothersFrame(parent, p', nxc, kx);
  }

  lemma ChildOfChild(v: Forest, prc: int, nxc: int)
    requires Distinct(v) && nxc in Tops(KidsOf(v, prc))
    ensures nxc != prc && prc !in Ids(KidsOf(v, nxc))
    ensures KidsOf(KidsOf(v, prc), nxc) == KidsOf(v, nxc)
  {
    TopsAreIds(KidsOf(v, prc));
    KidsOfFacts(v, prc);
    KidsOfKids(v, prc, nxc);
    KidsOfFacts(KidsOf(v, prc), nxc);
  }

  /** End of step 1B: make nxc the youngest child of con, or a root when con is NIL or below it. */
  method Adopt(t: ContainerTable, con: int, nxc: int, ghost v: Forest) returns (ghost v': Forest)
    requires Encodes(t, v) && (con == NIL || con in Ids(v)) && nxc in Ids(v)
    requires 0 <= nxc < |t.parent| && t.parent[nxc] == NIL
    modifies t
    ensures Encodes(t, v') && t.cache == old(t.cache)
    ensures var free := con != NIL && !Within(v, nxc, con);
            && v' == (if free then Youngest(v, con, nxc) else v)
            && t.parent == (if free then old(t.parent)[nxc := con] else old(t.parent))
  {
    v' := v;
    KidsLinked(t.parent, t.sibling, t.child, v, nxc);
    var looped := CheckChild(t, con, nxc, KidsOf(v, nxc));
    if !looped {
      t.parent := t.parent[nxc := con];
      assert con == NIL ==> t.parent == old(t.parent);
      if con != NIL {
        ghost var kc := KidsOf(Detach(v, nxc), con);
        v' := Youngest(v, con, nxc);
        MoveFacts(v, con, nxc);
        MotherLists(old(t.parent), t.sibling, t.child, v, nxc);
        LinkedDropRoot(old(t.parent), t.sibling, t.child, v, nxc);
        KidsLinked(old(t.parent), t.sibling, t.child, Detach(v, nxc), con);
        if t.child[con] != NIL {
          var y := Forests.Youngest(t.child, t.sibling, t.child[con], kc);
          LastInIds(kc);
          ChainInRange(t.child, t.sibling, t.child[con], kc);
          t.sibling := t.sibling[y := nxc];
        } else {
          t.child := t.child[con := nxc];
        }
        AdoptEncodes(old(t.parent), old(t.sibling), old(t.child), t.sibling, t.child, v, con, nxc);
      }
    }
  }

  /** Hanging the root nxc behind the youngest child of con. */
  lemma AdoptEncodes(parent: seq<int>, sib: seq<int>, child: seq<int>, s1: seq<int>, c1: seq<int>,
                     v: Forest, con: int, nxc: int)
    requires Linked(parent, sib, child, v) && Distinct(v) && nxc in Tops(v) && con in Ids(v) && !Within(v, nxc, con)
    requires 0 <= nxc < |sib| == |parent| == |child| && 0 <= con < |parent|
    requires var kc := KidsOf(Detach(v, nxc), con);
             if kc.Cons? then c1 == child && 0 <= Last(kc) < |sib| && s1 == sib[Last(kc) := nxc]
             else s1 == sib && c1 == child[con := nxc]
    ensures Linked(parent[nxc := con], s1, c1, Youngest(v, con, nxc))
  {
    hide Detach, KidsOf, SetKids, Distinct;
    var w := Detach(v, nxc);
    var kx, kc := KidsOf(v, nxc), KidsOf(w, con);
    var one, p' := Cons(nxc, kx, Nil), parent[nxc := con];
    TopsAreIds(v);
    LinkedDropRoot(parent, sib, child, v, nxc);
    MoveFacts(v, con, nxc);
    DetachFacts(v, nxc);
    KidsOfFacts(v, nxc);
    KidsOfFacts(w, con);
    KidsLinked(parent, sib, child, v, nxc);
    KidsLinked(parent, sib, child, w, con);
    RootSister(parent, sib, child, v, nxc);
    if kc.Cons? {
      LastInIds(kc);
    }
    ChainFrame(child, sib, c1, s1, c1[nxc], kx);
    if kc.Cons? {
      AppendNil(kc);
      ChainRetail(child, sib, c1, s1, child[con], kc, Nil, one);
    }
    MothersFrame(parent, p', nxc, kx);
    MothersFrame(parent, p', con, kc);
    MothersAppend(p', con, kc, one);
    LinkedSetKids(parent, sib, child, p', s1, c1, w, con, Append(kc, one));
  }

  lemma RootSister(parent: seq<int>, sib: seq<int>, child: seq<int>, f: Forest, x: int)
    requires Linked(parent, sib, child, f) && x in Tops(f)
    ensures 0 <= x < |sib| && sib[x] == NIL
    decreases f
  {
  }

  lemma MothersAppend(parent: seq<int>, m: int, f: Forest, g: Forest)
    requires Mothers(parent, m, f) && Mothers(parent, m, g)
    ensures Mothers(parent, m, Append(f, g))
    decreases f
  {
  }

  // ----- whole messages -----

  /** What step 1 builds: a name for each container, and their forest. */
  datatype Links = Links(names: map<string, int>, size: nat, forest: Forest)

  /** Names and containers correspond one to one. */
  ghost predicate Indexes(names: map<string, int>, n: nat) {
    && (forall s :: s in names ==> 0 <= names[s] < n)
    && (forall s, u :: s in names && u in names && names[s] == names[u] ==> s == u)
    && (forall c :: 0 <= c < n ==> c in names.Values)
  }

  ghost predicate Stands(l: Links, ht: HashTab, t: ContainerTable)
    reads ht, ht.table, t
  {
    && ht.Valid() && Encodes(t, l.forest)
    && l.names == ht.contents && l.size == |t.cache|
    && Indexes(l.names, l.size)
  }

  /** Looking a name up adds a dummy, parentless container when it is new. */
  ghost function Named(l: Links, name: string): Links {
    if name in l.names then l
    else Links(l.names[name := l.size], l.size + 1, Cons(l.size, Nil, l.forest))
  }

  lemma NamedIndexes(l: Links, name: string)
    requires Indexes(l.names, l.size) && name !in l.names
    ensures Indexes(Named(l, name).names, Named(l, name).size)
  {
    var l' := Named(l, name);
    forall x | 0 <= x < l'.size
      ensures x in l'.names.Values
    {
      if x < l.size {
        assert x in l.names.Values;
        var s :| s in l.names && l.names[s] == x;
        assert l'.names[s] == x;
      } else {
        assert l'.names[name] == x;
      }
    }
  }

  /** Step 1A for one pair of consecutive references. */
  ghost function Joined(v: Forest, con: int, nxc: int): Forest {
    if nxc in Tops(v) && !Within(v, nxc, con) then Eldest(v, con, nxc) else v
  }

  /** Step 1A for a whole reference list. */
  ghost function Followed(l: Links, refs: seq<string>): (r: Links)
    ensures l.names.Keys <= r.names.Keys
    ensures forall s :: s in refs ==> s in r.names
  {
    if refs == [] then l
    else
      var rest := refs[..|refs| - 1];
      var name := refs[|refs| - 1];
      var before := Followed(l, rest);
      var m := Named(before, name);
      assert refs == rest + [name];
      if rest == [] then m
      else
        assert rest[|rest| - 1] in before.names;
        m.(forest := Joined(m.forest, m.names[rest[|rest| - 1]], m.names[name]))
  }

  /** Step 1B: container own goes under con, wherever it was before. */
  ghost function Placed(v: Forest, con: int, own: int): Forest {
    if con != NIL && own in Tops(KidsOf(v, con)) then v
    else
      var w := if own in Tops(v) then v else Rooted(v, own);
      if con != NIL && !Within(w, own, con) then Youngest(w, con, own) else w
  }

  ghost function LastReference(l: Links, refs: seq<string>): int
    requires forall s :: s in refs ==> s in l.names
  {
    if refs == [] then NIL else l.names[refs[|refs| - 1]]
  }

  /** The mother a message gets in its own step: its last reference, or none when it has none or that is
      the message itself or below it. */
  ghost function MotherGiven(l: Links, own: int, refs: seq<string>): int {
    var m := Followed(l, refs);
    var con := LastReference(m, refs);
    if con == NIL || Within(m.forest, own, con) then NIL else con
  }

  /** Step 1 for one message. */
  ghost function Threaded(l: Links, own: int, refs: seq<string>): Links {
    var m := Followed(l, refs);
    m.(forest := Placed(m.forest, LastReference(m, refs), own))
  }

  method FindContainer(ht: HashTab, t: ContainerTable, name: string, ghost l: Links) returns (c: int, ghost l': Links)
    requires Stands(l, ht, t) && {ht, ht.table} !! {t}
    modifies ht, ht.table, t
    ensures Stands(l', ht, t) && l' == Named(l, name) && c == l'.names[name] && c in Ids(l'.forest)
    ensures old(t.cache) <= t.cache && forall x :: |old(t.cache)| <= x < |t.cache| ==> t.cache[x] == NIL
    ensures t.parent == Grown(old(t.parent), |t.parent|)
  {
    l' := Named(l, name);
    c := ht.LookupAndAdd(name, |t.cache|);
    if c == |t.cache| {
      var _ := t.Add(NIL);
      LinkedFrame(old(t.parent), old(t.sibling), old(t.child), t.parent, t.sibling, t.child, l.forest);
      NamedIndexes(l, name);
    }
  }

  lemma StandsIndexes(l: Links, ht: HashTab, t: ContainerTable)
    requires Stands(l, ht, t)
    ensures Indexes(l.names, l.size) && l.size == |t.parent|
  {
  }

  /** The containers of a reference list. */
  ghost function ContainersOf(names: map<string, int>, refs: seq<string>): (cs: seq<int>)
    requires forall s :: s in refs ==> s in names
    ensures |cs| == |refs|
  {
    seq(|refs|, k requires 0 <= k < |refs| => names[refs[k]])
  }

  /** One pair more. */
  lemma {:induction false} PairFollowed(parent: seq<int>, n: nat, n': nat, names: map<string, int>,
                                        names': map<string, int>, refs: seq<string>, i: nat)
    requires 1 <= i < |refs| && |parent| <= n <= n' && refs[i] in names'
    requires forall k :: 0 <= k < i ==> refs[k] in names && 0 <= names[refs[k]] < n
    requires forall s :: s in names ==> s in names' && names'[s] == names[s]
    ensures var cs := ContainersOf(names, refs[..i]);
            PairLinked(Grown(PairsLinked(Grown(parent, n), cs), n'), names[refs[i - 1]], names'[refs[i]])
            == PairsLinked(Grown(parent, n'), ContainersOf(names', refs[..i + 1]))
  {
    hide PairLinked, Grown;
    var (cs, cs') := (ContainersOf(names, refs[..i]), ContainersOf(names', refs[..i + 1]));
    assert cs'[..i] == cs;
    GrownTwice(parent, n, n');
    PairsGrown(Grown(parent, n), n', cs);
  }

  lemma RootIffParentless(t: ContainerTable, v: Forest, x: int)
    requires Encodes(t, v) && x in Ids(v)
    ensures 0 <= x < |t.parent| && (x in Tops(v) <==> t.parent[x] == NIL)
  {
    MotherLists(t.parent, t.sibling, t.child, v, x);
  }

  /** One round of step 1A: name is the next reference after the one whose container is con. */
  method FollowPair(ht: HashTab, t: ContainerTable, con: int, name: string, ghost l: Links)
    returns (nxc: int, ghost l': Links)
    requires Stands(l, ht, t) && {ht, ht.table} !! {t} && con in Ids(l.forest)
    modifies ht, ht.table, t
    ensures var m := Named(l, name);
            && nxc == m.names[name] && nxc in Ids(l'.forest) && l' == m.(forest := Joined(m.forest, con, nxc))
    ensures Stands(l', ht, t)
    ensures old(t.cache) <= t.cache && forall x :: |old(t.cache)| <= x < |t.cache| ==> t.cache[x] == NIL
    ensures |old(t.parent)| <= |t.parent| == l'.size
    ensures t.parent == PairLinked(Grown(old(t.parent), |t.parent|), con, nxc)
  {
    nxc, l' := FindContainer(ht, t, name, l);
    RootIffParentless(t, l'.forest, nxc);
    WithinIsAncestry(t.parent, t.sibling, t.child, l'.forest, nxc, con);
    ghost var v := LinkReference(t, con, nxc, l'.forest);
    l' := l'.(forest := v);
  }

  lemma FirstFollowed(l: Links, refs: seq<string>)
    requires refs != []
    ensures Followed(l, refs[..1]) == Named(l, refs[0])
  {
    assert refs[..1][..0] == [] && Followed(l, []) == l;
  }

  lemma NextFollowed(l: Links, refs: seq<string>, i: nat)
    requires 1 <= i < |refs|
    ensures var (before, con) := (Followed(l, refs[..i]), LastReference(Followed(l, refs[..i]), refs[..i]));
            var m := Named(before, refs[i]);
            Followed(l, refs[..i + 1]) == m.(forest := Joined(m.forest, con, m.names[refs[i]]))
  {
    hide Joined;
    assert refs[..i + 1][..i] == refs[..i];
  }

  lemma OnePair(parent: seq<int>, cs: seq<int>)
    requires |cs| < 2
    ensures PairsLinked(parent, cs) == parent
  {
  }

  lemma IndexesRange(names: map<string, int>, size: nat, refs: seq<string>)
    requires Indexes(names, size) && forall s :: s in refs ==> s in names
    ensures forall k :: 0 <= k < |refs| ==> refs[k] in names && 0 <= names[refs[k]] < size
    ensures forall k :: 0 <= k < |refs| ==> 0 <= ContainersOf(names, refs)[k] < size
  {
  }

  /** Step 1A: follow the reference list; con is the container of its last entry. */
  method FollowReferences(ht: HashTab, t: ContainerTable, refs: seq<string>, ghost l: Links)
    returns (con: int, ghost l': Links)
    requires Stands(l, ht, t) && {ht, ht.table} !! {t} && refs != []
    modifies ht, ht.table, t
    ensures Stands(l', ht, t) && l' == Followed(l, refs) && con == LastReference(l', refs) && con in Ids(l'.forest)
    ensures old(t.cache) <= t.cache && forall x :: |old(t.cache)| <= x < |t.cache| ==> t.cache[x] == NIL
    ensures |old(t.parent)| <= |t.parent| == l'.size
    ensures t.parent == PairsLinked(Grown(old(t.parent), |t.parent|), ContainersOf(l'.names, refs))
  {
    hide Stands, Followed, Joined, Indexes, PairLinked, PairsLinked, Grown;
    FirstFollowed(l, refs);
    con, l' := FindContainer(ht, t, refs[0], l);
    StandsIndexes(l', ht, t);
    OnePair(Grown(old(t.parent), |t.parent|), ContainersOf(l'.names, refs[..1]));
    for i := 1 to |refs|
      invariant Stands(l', ht, t) && l' == Followed(l, refs[..i])
      invariant con == LastReference(l', refs[..i]) && con in Ids(l'.forest)
      invariant old(t.cache) <= t.cache && forall x :: |old(t.cache)| <= x < |t.cache| ==> t.cache[x] == NIL
      invariant |old(t.parent)| <= |t.parent| == l'.size
      invariant t.parent == PairsLinked(Grown(old(t.parent), |t.parent|), ContainersOf(l'.names, refs[..i]))
    {
      StandsIndexes(l', ht, t);
      NextFollowed(l, refs, i);
      IndexesRange(l'.names, l'.size, refs[..i]);
      ghost var names, n := l'.names, |t.parent|;
      con, l' := FollowPair(ht, t, con, refs[i], l');
      PairFollowed(old(t.parent), n, |t.parent|, names, l'.names, refs, i);
    }
    assert refs[..|refs|] == refs;
  }

  lemma MotherNotBelow(t: ContainerTable, v: Forest, x: int)
    requires Encodes(t, v) && x in Ids(v) && 0 <= x < |t.parent| && t.parent[x] != NIL
    ensures !Within(v, x, t.parent[x]) && x in Tops(KidsOf(v, t.parent[x]))
  {
    MotherLists(t.parent, t.sibling, t.child, v, x);
    ChildOfChild(v, t.parent[x], x);
  }

  lemma OneMother(t: ContainerTable, v: Forest, con: int, x: int)
    requires Encodes(t, v) && x in Ids(v) && con in Ids(v) && x in Tops(KidsOf(v, con))
    ensures 0 <= x < |t.parent| && t.parent[x] == con != NIL
  {
    KidsLinked(t.parent, t.sibling, t.child, v, con);
    MothersOfTops(t.parent, con, KidsOf(v, con), x);
  }

  /** Step 1B for a message whose container is own: its mother ends up being its last reference con,
      unless it has none or con is own itself or below it; no other container changes mother. */
  method PlaceMessage(t: ContainerTable, con: int, own: int, ghost v: Forest) returns (ghost v': Forest)
    requires Encodes(t, v) && (con == NIL || con in Ids(v)) && own in Ids(v)
    modifies t
    ensures Encodes(t, v') && t.cache == old(t.cache) && v' == Placed(v, con, own)
    ensures 0 <= own < |old(t.parent)|
    ensures t.parent == old(t.parent)[own := if con == NIL || Within(v, own, con) then NIL else con]
  {
    v' := v;
    RootIffParentless(t, v, own);
    if con != NIL && own in Tops(KidsOf(v, con)) {
      OneMother(t, v, con, own);
    }
    var prc := t.parent[own];
    if prc != NIL {
      MotherNotBelow(t, v, own);
    }
    if prc != NIL && prc != con {
      v' := Unlink(t, own, prc, v');
      RootedFacts(v, own);
      prc := NIL;
    }
    if prc == NIL {
      v' := Adopt(t, con, own, v');
    }
  }

  lemma StandsFacts(l: Links, ht: HashTab, t: ContainerTable)
    ensures Stands(l, ht, t)
            <==> ht.Valid() && Encodes(t, l.forest) && l.names == ht.contents && l.size == |t.cache|
                 && Indexes(l.names, l.size)
    ensures Encodes(t, l.forest) ==> |t.parent| == |t.cache| && Covers(l.forest, |t.cache|)
  {
  }

  lemma OwnIsIndex(l: Links, unique: string)
    requires Indexes(l.names, l.size) && unique in l.names
    ensures 0 <= l.names[unique] < l.size
  {
  }

  lemma NothingFollowed(l: Links, parent: seq<int>)
    ensures Followed(l, []) == l && PairsLinked(parent, []) == parent && Grown(parent, |parent|) == parent
  {
  }

  lemma OwnClimbs(t: ContainerTable, v: Forest, con: int, own: int)
    requires Encodes(t, v) && own in Ids(v) && (con == NIL || con in Ids(v))
    ensures con != NIL ==> (Within(v, own, con) <==> Climbs(t.parent, con, own))
  {
    if con != NIL {
      WithinIsAncestry(t.parent, t.sibling, t.child, v, own, con);
    }
  }

  /** The mothers after one message. */
  ghost function MessageLinked(parent: seq<int>, size: nat, names: map<string, int>, refs: seq<string>,
                               own: int): (p: seq<int>)
    requires 0 <= own < |parent| && forall s :: s in refs ==> s in names
    ensures |p| == if |parent| <= size then size else |parent|
  {
    var mid := PairsLinked(Grown(parent, size), ContainersOf(names, refs));
    OwnLinked(mid, if refs == [] then NIL else names[refs[|refs| - 1]], own)
  }

  lemma MessageKeeps(parent: seq<int>, size: nat, names: map<string, int>, refs: seq<string>, own: int, x: int)
    requires 0 <= own < |parent| && (forall s :: s in refs ==> s in names)
    requires 0 <= x < |parent| && x != own && parent[x] != NIL
    ensures MessageLinked(parent, size, names, refs, own)[x] == parent[x]
  {
    hide PairsLinked;
    PairsKeep(Grown(parent, size), ContainersOf(names, refs));
    assert Grown(parent, size)[x] == parent[x];
  }

  /** Step 1 for message number own: first the pairs of its references are linked, oldest first, then it gets its last
      reference for its mother, unless that is itself or below it. */
  method ThreadMessage(ht: HashTab, t: ContainerTable, own: int, unique: string, refs: seq<string>, ghost l: Links)
    returns (ghost l': Links)
    requires Stands(l, ht, t) && {ht, ht.table} !! {t} && unique in l.names && l.names[unique] == own
    modifies ht, ht.table, t
    ensures Stands(l', ht, t) && l' == Threaded(l, own, refs)
    ensures old(t.cache) <= t.cache && forall x :: |old(t.cache)| <= x < |t.cache| ==> t.cache[x] == NIL
    ensures 0 <= own < |old(t.parent)| <= |t.parent| == l'.size
    ensures t.parent == MessageLinked(old(t.parent), l'.size, l'.names, refs, own)
    ensures t.parent[own] == MotherGiven(l, own, refs)
  {
    hide Stands, Encodes, Indexes, Placed, PairsLinked, Followed;
    StandsFacts(l, ht, t);
    OwnIsIndex(l, unique);
    NothingFollowed(l, t.parent);
    var con := NIL;
    l' := l;
    if refs != [] {
      con, l' := FollowReferences(ht, t, refs, l);
    }
    StandsFacts(l', ht, t);
    OwnIsIndex(l, unique);
    OwnClimbs(t, l'.forest, con, own);
    ghost var v := PlaceMessage(t, con, own, l'.forest);
    l' := l'.(forest := v);
    StandsFacts(l', ht, t);
  }
}
