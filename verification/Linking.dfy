/** Container links as a forest: what the raw parent, sibling and child vectors mean while the
    reference chains are being followed.

    Each parentless container is the root of a tree of its own, with no sister link; `Linked` says
    that the vectors encode a given list of such trees. */
module Linking {
  import opened Forests

  // ----- forest surgery -----

  ghost function KidsOf(f: Forest, x: int): Forest {
    match f
    case Nil => Nil
    case Cons(id, k, r) =>
      if id == x then k else if x in Ids(k) then KidsOf(k, x) else KidsOf(r, x)
  }

  /** Replace the children of p by g. */
  ghost function SetKids(f: Forest, p: int, g: Forest): Forest {
    match f
    case Nil => Nil
    case Cons(id, k, r) =>
      if id == p then Cons(id, g, r) else Cons(id, SetKids(k, p, g), SetKids(r, p, g))
  }

  /** The forest without x and everything below it. */
  ghost function Detach(f: Forest, x: int): Forest {
    match f
    case Nil => Nil
    case Cons(id, k, r) => if id == x then r else Cons(id, Detach(k, x), Detach(r, x))
  }

  /** x itself or one of its descendants. */
  ghost predicate Within(f: Forest, x: int, c: int) {
    c == x || c in Ids(KidsOf(f, x))
  }

  lemma KidsOfFacts(f: Forest, x: int)
    ensures Ids(KidsOf(f, x)) <= Ids(f)
    ensures Distinct(f) ==> Distinct(KidsOf(f, x)) && x !in Ids(KidsOf(f, x))
    ensures x !in Ids(f) ==> KidsOf(f, x) == Nil
  {
  }

  lemma {:induction false} SetKidsFacts(f: Forest, p: int, g: Forest)
    requires Distinct(f)
    ensures p !in Ids(f) ==> SetKids(f, p, g) == f
    ensures p in Ids(f) ==> Ids(SetKids(f, p, g)) == Ids(f) - Ids(KidsOf(f, p)) + Ids(g)
    ensures Distinct(g) && Ids(g) !! Ids(f) - Ids(KidsOf(f, p)) ==> Distinct(SetKids(f, p, g))
    ensures Tops(SetKids(f, p, g)) == Tops(f)
    decreases f
  {
    if f.Cons? {
      SetKidsFacts(f.kids, p, g);
      SetKidsFacts(f.rest, p, g);
      KidsOfFacts(f.kids, p);
      KidsOfFacts(f.rest, p);
    }
  }

  lemma {:induction false} DetachFacts(f: Forest, x: int)
    requires Distinct(f)
    ensures x !in Ids(f) ==> Detach(f, x) == f
    ensures Ids(Detach(f, x)) == Ids(f) - {x} - Ids(KidsOf(f, x))
    ensures Distinct(Detach(f, x))
    decreases f
  {
    if f.Cons? {
      DetachFacts(f.kids, x);
      DetachFacts(f.rest, x);
      KidsOfFacts(f.kids, x);
      KidsOfFacts(f.rest, x);
    }
  }

  lemma TopsAreIds(f: Forest)
    ensures forall x :: x in Tops(f) ==> x in Ids(f)
  {
  }

  /** Detaching one child of p only changes p's children. */
  lemma {:induction false} DetachIsSetKids(f: Forest, p: int, x: int)
    requires Distinct(f) && x in Tops(KidsOf(f, p))
    ensures p in Ids(f) && x in Ids(f)
    ensures Detach(f, x) == SetKids(f, p, Detach(KidsOf(f, p), x))
    decreases f
  {
    TopsAreIds(KidsOf(f, p));
    KidsOfFacts(f, p);
    if f.Cons? {
      var g := Detach(KidsOf(f, p), x);
      if f.id == p {
        DetachFacts(f.rest, x);
        SetKidsFacts(f.rest, p, g);
      } else if p in Ids(f.kids) {
        DetachIsSetKids(f.kids, p, x);
        DetachFacts(f.rest, x);
        SetKidsFacts(f.rest, p, g);
      } else {
        KidsOfFacts(f.rest, p);
        DetachIsSetKids(f.rest, p, x);
        DetachFacts(f.kids, x);
        SetKidsFacts(f.kids, p, g);
      }
    }
  }

  // ----- what the link vectors say -----

  /** Every container of f carries its real mother; those at the top of f have mother m. */
  ghost predicate Mothers(parent: seq<int>, m: int, f: Forest)
    decreases f
  {
    match f
    case Nil => true
    case Cons(id, k, r) =>
      0 <= id < |parent| && parent[id] == m && Mothers(parent, id, k) && Mothers(parent, m, r)
  }

  /** The vectors encode the trees of f: roots have neither mother nor sister. */
  ghost predicate Linked(parent: seq<int>, sib: seq<int>, child: seq<int>, f: Forest)
    decreases f
  {
    match f
    case Nil => true
    case Cons(id, k, r) =>
      && 0 <= id < |parent| && id < |sib| && id < |child|
      && parent[id] == NIL
      && sib[id] == NIL
      && Chain(child, sib, child[id], k)
      && Mothers(parent, id, k)
      && Linked(parent, sib, child, r)
  }

  lemma {:induction false} MothersFrame(parent: seq<int>, parent': seq<int>, m: int, f: Forest)
    requires Mothers(parent, m, f) && Same(parent, parent', Ids(f))
    ensures Mothers(parent', m, f)
    decreases f
  {
    if f.Cons? {
      MothersFrame(parent, parent', f.id, f.kids);
      MothersFrame(parent, parent', m, f.rest);
    }
  }

  lemma {:induction false} LinkedFrame(parent: seq<int>, sib: seq<int>, child: seq<int>,
                                       parent': seq<int>, sib': seq<int>, child': seq<int>, f: Forest)
    requires Linked(parent, sib, child, f)
    requires Same(parent, parent', Ids(f)) && Same(sib, sib', Ids(f)) && Same(child, child', Ids(f))
    ensures Linked(parent', sib', child', f)
    decreases f
  {
    if f.Cons? {
      ChainFrame(child, sib, child', sib', child[f.id], f.kids);
      MothersFrame(parent, parent', f.id, f.kids);
      LinkedFrame(parent, sib, child, parent', sib', child', f.rest);
    }
  }

  /** Entering the children of one container of a linked forest. */
  lemma {:induction false} KidsLinked(parent: seq<int>, sib: seq<int>, child: seq<int>, f: Forest, x: int)
    requires Linked(parent, sib, child, f) && x in Ids(f)
    ensures 0 <= x < |parent| && x < |sib| && x < |child|
    ensures Chain(child, sib, child[x], KidsOf(f, x)) && Mothers(parent, x, KidsOf(f, x))
    decreases f
  {
    if f.id != x {
      if x in Ids(f.kids) {
        ChainKids(child, sib, child[f.id], f.kids, x);
        MothersKids(parent, f.id, f.kids, x);
      } else {
        KidsLinked(parent, sib, child, f.rest, x);
      }
    }
  }

  lemma {:induction false} ChainKids(child: seq<int>, sib: seq<int>, p: int, f: Forest, x: int)
    requires Chain(child, sib, p, f) && x in Ids(f)
    ensures 0 <= x < |child| && x < |sib| && Chain(child, sib, child[x], KidsOf(f, x))
    decreases f
  {
    if f.id != x {
      if x in Ids(f.kids) {
        ChainKids(child, sib, child[f.id], f.kids, x);
      } else {
        ChainKids(child, sib, sib[f.id], f.rest, x);
      }
    }
  }

  lemma {:induction false} MothersKids(parent: seq<int>, m: int, f: Forest, x: int)
    requires Mothers(parent, m, f) && x in Ids(f)
    ensures 0 <= x < |parent| && Mothers(parent, x, KidsOf(f, x))
    decreases f
  {
    if f.id != x {
      if x in Ids(f.kids) {
        MothersKids(parent, f.id, f.kids, x);
      } else {
        MothersKids(parent, m, f.rest, x);
      }
    }
  }

  /** A recorded mother is a container of the forest, and lists the daughter among its children. */
  lemma {:induction false} MotherLists(parent: seq<int>, sib: seq<int>, child: seq<int>, f: Forest, x: int)
    requires Linked(parent, sib, child, f) && Distinct(f) && x in Ids(f)
    ensures 0 <= x < |parent|
    ensures parent[x] == NIL <==> x in Tops(f)
    ensures parent[x] != NIL ==> parent[x] in Ids(f) && x in Tops(KidsOf(f, parent[x]))
    decreases f
  {
    TopsAreIds(f.rest);
    if f.id != x {
      if x in Ids(f.kids) {
        MotherListsInside(parent, f.id, f.kids, x);
        KidsOfFacts(f.kids, parent[x]);
        assert parent[x] != NIL by {
          ChainInRange(child, sib, child[f.id], f.kids);
        }
      } else {
        MotherLists(parent, sib, child, f.rest, x);
        KidsOfFacts(f.rest, parent[x]);
      }
    }
  }

  lemma {:induction false} MotherListsInside(parent: seq<int>, m: int, f: Forest, x: int)
    requires Mothers(parent, m, f) && Distinct(f) && x in Ids(f) && m !in Ids(f)
    ensures 0 <= x < |parent|
    ensures if x in Tops(f) then parent[x] == m else parent[x] in Ids(f) && x in Tops(KidsOf(f, parent[x]))
    decreases f
  {
    TopsAreIds(f.rest);
    if f.id != x {
      if x in Ids(f.kids) {
        MotherListsInside(parent, f.id, f.kids, x);
        KidsOfFacts(f.kids, parent[x]);
      } else {
        MotherListsInside(parent, m, f.rest, x);
        KidsOfFacts(f.rest, parent[x]);
      }
    }
  }

  // ----- re-establishing the encoding after surgery -----

  lemma {:induction false} ChainSetKids(child: seq<int>, sib: seq<int>, child': seq<int>, sib': seq<int>,
                                        q: int, f: Forest, p: int, g: Forest)
    requires Chain(child, sib, q, f) && Distinct(f) && p in Ids(f)
    requires var off := Ids(f) - Ids(KidsOf(f, p)); Same(sib, sib', off) && Same(child, child', off - {p})
    requires 0 <= p < |child'| && Chain(child', sib', child'[p], g)
    ensures Chain(child', sib', q, SetKids(f, p, g))
    decreases f
  {
    KidsOfFacts(f.kids, p);
    KidsOfFacts(f.rest, p);
    SetKidsFacts(f.kids, p, g);
    SetKidsFacts(f.rest, p, g);
    if f.id == p || p in Ids(f.kids) {
      if f.id != p {
        ChainSetKids(child, sib, child', sib', child[f.id], f.kids, p, g);
      }
      ChainFrame(child, sib, child', sib', sib[f.id], f.rest);
    } else {
      ChainFrame(child, sib, child', sib', child[f.id], f.kids);
      ChainSetKids(child, sib, child', sib', sib[f.id], f.rest, p, g);
    }
  }

  lemma {:induction false} MothersSetKids(parent: seq<int>, parent': seq<int>, m: int, f: Forest, p: int, g: Forest)
    requires Mothers(parent, m, f) && Distinct(f) && p in Ids(f)
    requires Same(parent, parent', Ids(f) - Ids(KidsOf(f, p))) && Mothers(parent', p, g)
    ensures Mothers(parent', m, SetKids(f, p, g))
    decreases f
  {
    KidsOfFacts(f.kids, p);
    KidsOfFacts(f.rest, p);
    SetKidsFacts(f.kids, p, g);
    SetKidsFacts(f.rest, p, g);
    if f.id == p || p in Ids(f.kids) {
      if f.id != p {
        MothersSetKids(parent, parent', f.id, f.kids, p, g);
      }
      MothersFrame(parent, parent', m, f.rest);
    } else {
      MothersFrame(parent, parent', f.id, f.kids);
      MothersSetKids(parent, parent', m, f.rest, p, g);
    }
  }

  lemma {:induction false} LinkedSetKids(parent: seq<int>, sib: seq<int>, child: seq<int>,
                                         parent': seq<int>, sib': seq<int>, child': seq<int>,
                                         f: Forest, p: int, g: Forest)
    requires Linked(parent, sib, child, f) && Distinct(f) && p in Ids(f)
    requires var off := Ids(f) - Ids(KidsOf(f, p));
             Same(parent, parent', off) && Same(sib, sib', off) && Same(child, child', off - {p})
    requires 0 <= p < |child'| && Chain(child', sib', child'[p], g) && Mothers(parent', p, g)
    ensures Linked(parent', sib', child', SetKids(f, p, g))
    decreases f
  {
    KidsOfFacts(f.kids, p);
    KidsOfFacts(f.rest, p);
    SetKidsFacts(f.kids, p, g);
    SetKidsFacts(f.rest, p, g);
    if f.id == p || p in Ids(f.kids) {
      if f.id != p {
        ChainSetKids(child, sib, child', sib', child[f.id], f.kids, p, g);
        MothersSetKids(parent, parent', f.id, f.kids, p, g);
      }
      LinkedFrame(parent, sib, child, parent', sib', child', f.rest);
    } else {
      ChainFrame(child, sib, child', sib', child[f.id], f.kids);
      MothersFrame(parent, parent', f.id, f.kids);
      LinkedSetKids(parent, sib, child, parent', sib', child', f.rest, p, g);
    }
  }

  /** A root can be taken away without touching any link. */
  lemma {:induction false} LinkedDropRoot(parent: seq<int>, sib: seq<int>, child: seq<int>, f: Forest, x: int)
    requires Linked(parent, sib, child, f) && Distinct(f) && x in Tops(f)
    ensures Linked(parent, sib, child, Detach(f, x))
    decreases f
  {
    if f.id != x {
      TopsAreIds(f.rest);
      DetachFacts(f.kids, x);
      LinkedDropRoot(parent, sib, child, f.rest, x);
    }
  }

  /** The sister immediately older than x in the list f. */
  ghost function Elder(f: Forest, x: int): int
    requires x in Tops(f) && f.id != x
  {
    assert x in Tops(f.rest);
    if f.rest.id == x then f.id else Elder(f.rest, x)
  }

  /** Bridging over x in its sister list. */
  lemma {:induction false} ChainBridge(child: seq<int>, sib: seq<int>, p: int, f: Forest, x: int)
    requires Chain(child, sib, p, f) && Distinct(f) && x in Tops(f) && f.id != x
    ensures Elder(f, x) in Ids(f) && 0 <= Elder(f, x) < |sib| && 0 <= x < |sib|
    ensures Chain(child, sib[Elder(f, x) := sib[x]], p, Detach(f, x))
    ensures Elder(f, x) !in Ids(KidsOf(f, x)) && Elder(f, x) != x
    decreases f
  {
    var r := f.rest;
    TopsAreIds(r);
    DetachFacts(f.kids, x);
    if r.id == x {
      var sib' := sib[f.id := sib[x]];
      ChainFrame(child, sib, child, sib', child[f.id], f.kids);
      ChainFrame(child, sib, child, sib', sib[x], r.rest);
    } else {
      ChainBridge(child, sib, sib[f.id], r, x);
      ChainFrame(child, sib, child, sib[Elder(f, x) := sib[x]], child[f.id], f.kids);
    }
  }

  lemma {:induction false} MothersDetach(parent: seq<int>, m: int, f: Forest, x: int)
    requires Mothers(parent, m, f) && Distinct(f) && x in Tops(f)
    ensures Mothers(parent, m, Detach(f, x))
    decreases f
  {
    TopsAreIds(f.rest);
    DetachFacts(f.kids, x);
    if f.id != x {
      MothersDetach(parent, m, f.rest, x);
    }
  }

  // ----- the same facts without trees -----

  /** The n-th mother of x, following the raw parent vector. */
  ghost function Up(parent: seq<int>, x: int, n: nat): int
    decreases n
  {
    if n == 0 then x
    else if 0 <= x < |parent| then Up(parent, parent[x], n - 1)
    else NIL
  }

  /** Climbing from mother to mother, c reaches x; every container reaches itself. */
  ghost predicate Climbs(parent: seq<int>, c: int, x: int) {
    exists n: nat :: Up(parent, c, n) == x
  }

  ghost function Depth(f: Forest, x: int): nat {
    match f
    case Nil => 0
    case Cons(id, k, r) => if id == x then 0 else if x in Ids(k) then 1 + Depth(k, x) else Depth(r, x)
  }

  lemma {:induction false} MotherDepth(parent: seq<int>, m: int, f: Forest, x: int)
    requires Mothers(parent, m, f) && Distinct(f) && x in Ids(f) && x !in Tops(f) && m !in Ids(f)
    ensures 0 <= x < |parent| && parent[x] in Ids(f) && Depth(f, x) == Depth(f, parent[x]) + 1
    decreases f
  {
    MotherListsInside(parent, m, f, x);
    TopsAreIds(f.rest);
    if x in Ids(f.kids) {
      MotherListsInside(parent, f.id, f.kids, x);
      if x in Tops(f.kids) {
        TopDepth(f.kids, x);
      } else {
        MotherDepth(parent, f.id, f.kids, x);
      }
    } else {
      MotherDepth(parent, m, f.rest, x);
    }
  }

  lemma TopDepth(f: Forest, x: int)
    requires Distinct(f) && x in Tops(f)
    ensures Depth(f, x) == 0
  {
    TopsAreIds(f);
    if f.Cons? {
      TopsAreIds(f.rest);
    }
  }

  lemma {:induction false} LinkedDepth(parent: seq<int>, sib: seq<int>, child: seq<int>, f: Forest, x: int)
    requires Linked(parent, sib, child, f) && Distinct(f) && x in Ids(f) && 0 <= x < |parent| && parent[x] != NIL
    ensures parent[x] in Ids(f) && Depth(f, x) == Depth(f, parent[x]) + 1
    decreases f
  {
    MotherLists(parent, sib, child, f, x);
    TopsAreIds(f.rest);
    if x in Ids(f.kids) {
      MotherListsInside(parent, f.id, f.kids, x);
      if x in Tops(f.kids) {
        TopDepth(f.kids, x);
      } else {
        MotherDepth(parent, f.id, f.kids, x);
      }
    } else {
      MotherLists(parent, sib, child, f.rest, x);
      LinkedDepth(parent, sib, child, f.rest, x);
    }
  }

  lemma {:induction false} UpDepth(parent: seq<int>, sib: seq<int>, child: seq<int>, f: Forest, x: int, n: nat)
    requires Linked(parent, sib, child, f) && Distinct(f) && x in Ids(f)
    ensures var a := Up(parent, x, n); a != NIL ==> a in Ids(f) && Depth(f, a) + n == Depth(f, x)
    decreases n
  {
    if n > 0 {
      MotherLists(parent, sib, child, f, x);
      if parent[x] != NIL {
        LinkedDepth(parent, sib, child, f, x);
        UpDepth(parent, sib, child, f, parent[x], n - 1);
      }
    }
  }

  /** No container is its own ancestor. */
  lemma NoLoop(parent: seq<int>, sib: seq<int>, child: seq<int>, f: Forest, x: int, n: nat)
    requires Linked(parent, sib, child, f) && Distinct(f) && x in Ids(f) && n > 0
    ensures Up(parent, x, n) != x
  {
    UpDepth(parent, sib, child, f, x, n);
    MotherLists(parent, sib, child, f, x);
  }

  /** A child list holds exactly the containers recording that mother, each once. */
  lemma ListedOnce(parent: seq<int>, sib: seq<int>, child: seq<int>, f: Forest, p: int, x: int)
    requires Linked(parent, sib, child, f) && Distinct(f) && p in Ids(f) && x in Ids(f)
    ensures 0 <= p < |child| && Chain(child, sib, child[p], KidsOf(f, p))
    ensures 0 <= x < |parent| && multiset(Tops(KidsOf(f, p)))[x] == if parent[x] == p then 1 else 0
  {
    KidsLinked(parent, sib, child, f, p);
    KidsOfFacts(f, p);
    MotherLists(parent, sib, child, f, x);
    TopsOnce(KidsOf(f, p), x);
    if x in Tops(KidsOf(f, p)) {
      MothersOfTops(parent, p, KidsOf(f, p), x);
    }
  }

  lemma TopsOnce(f: Forest, x: int)
    requires Distinct(f)
    ensures multiset(Tops(f))[x] == if x in Tops(f) then 1 else 0
  {
    if f.Cons? {
      TopsOnce(f.rest, x);
      TopsAreIds(f.rest);
      assert Tops(f) == [f.id] + Tops(f.rest);
    }
  }

  lemma MothersOfTops(parent: seq<int>, m: int, f: Forest, x: int)
    requires Mothers(parent, m, f) && x in Tops(f)
    ensures 0 <= x < |parent| && parent[x] == m
    decreases f
  {
  }

  lemma KidsOfKids(f: Forest, x: int, p: int)
    requires Distinct(f) && p in Ids(KidsOf(f, x))
    ensures KidsOf(f, p) == KidsOf(KidsOf(f, x), p)
  {
    if f.Cons? {
      KidsOfFacts(f.kids, x);
      KidsOfFacts(f.rest, x);
    }
  }

  /** Being in the subtree of x is the same as reaching x through recorded mothers. */
  lemma {:induction false} WithinIsAncestry(parent: seq<int>, sib: seq<int>, child: seq<int>, f: Forest, x: int, c: int)
    requires Linked(parent, sib, child, f) && Distinct(f) && x in Ids(f) && c in Ids(f)
    ensures Within(f, x, c) <==> Climbs(parent, c, x)
  {
    if Within(f, x, c) {
      var n := ClimbTo(parent, sib, child, f, x, c);
    }
    if Climbs(parent, c, x) {
      var n: nat :| Up(parent, c, n) == x;
      ClimbIsWithin(parent, sib, child, f, x, c, n);
    }
  }

  lemma {:induction false} ClimbTo(parent: seq<int>, sib: seq<int>, child: seq<int>, f: Forest, x: int, c: int)
    returns (n: nat)
    requires Linked(parent, sib, child, f) && Distinct(f) && x in Ids(f) && c in Ids(f) && Within(f, x, c)
    ensures Up(parent, c, n) == x
    decreases Depth(f, c)
  {
    MotherLists(parent, sib, child, f, c);
    if c == x {
      n := 0;
    } else {
      KidsLinked(parent, sib, child, f, x);
      KidsOfFacts(f, x);
      MotherListsInside(parent, x, KidsOf(f, x), c);
      TopsAreIds(KidsOf(f, x));
      if c in Tops(f) {
        RootNotInside(f, x, c);
      }
      LinkedDepth(parent, sib, child, f, c);
      n := ClimbTo(parent, sib, child, f, x, parent[c]);
      n := n + 1;
    }
  }

  lemma RootNotInside(f: Forest, x: int, c: int)
    requires Distinct(f) && c in Tops(f)
    ensures c !in Ids(KidsOf(f, x))
  {
    if f.Cons? {
      TopsAreIds(f.rest);
      KidsOfFacts(f.kids, x);
      KidsOfFacts(f.rest, x);
    }
  }

  lemma {:induction false} ClimbIsWithin(parent: seq<int>, sib: seq<int>, child: seq<int>, f: Forest, x: int, c: int,
                                         n: nat)
    requires Linked(parent, sib, child, f) && Distinct(f) && x in Ids(f) && c in Ids(f) && Up(parent, c, n) == x
    ensures Within(f, x, c)
    decreases n
  {
    if n > 0 {
      MotherLists(parent, sib, child, f, c);
      UpDepth(parent, sib, child, f, c, n);
      var p := parent[c];
      assert p == NIL ==> Up(parent, p, n - 1) == NIL;
      if p == NIL {
        KidsLinked(parent, sib, child, f, x);
      } else {
        ClimbIsWithin(parent, sib, child, f, x, p, n - 1);
        TopsAreIds(KidsOf(f, p));
        if p != x {
          KidsOfKids(f, x, p);
          KidsOfFacts(KidsOf(f, x), p);
        }
      }
    }
  }
}
