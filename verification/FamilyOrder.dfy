/** The order of the children in step 1 of REFERENCES threading: a reference link puts the new child in front of her
    sisters, a message's own step behind them. */
module FamilyOrder {
  import opened Forests
  import opened Linking
  import opened ReferenceLinks

  /** What KidsOf finds after c has got other children. */
  lemma {:induction false} KidsOfNewKids(f: Forest, c: int, g: Forest, p: int)
    requires Distinct(f) && Distinct(g) && c in Ids(f) && Ids(g) !! Ids(f) - Ids(KidsOf(f, c))
    requires p !in Ids(KidsOf(f, c)) - Ids(g)
    ensures var k := KidsOf(SetKids(f, c, g), p);
            if p == c then k == g
            else if p in Ids(g) then k == KidsOf(g, p)
            else Tops(k) == Tops(KidsOf(f, p))
    decreases f
  {
    KidsOfFacts(f.kids, c);
    KidsOfFacts(f.rest, c);
    SetKidsFacts(f.kids, c, g);
    SetKidsFacts(f.rest, c, g);
    if c in Ids(f.kids) {
      KidsOfNewKids(f.kids, c, g, p);
    } else if c in Ids(f.rest) {
      KidsOfNewKids(f.rest, c, g, p);
    }
  }

  /** Taking the tree of the root x away leaves the other families alone. */
  lemma {:induction false} KidsOfDetached(v: Forest, x: int, p: int)
    requires Distinct(v) && x in Tops(v) && !Within(v, x, p)
    ensures KidsOf(Detach(v, x), p) == KidsOf(v, p)
    decreases v
  {
    TopsAreIds(v.rest);
    KidsOfFacts(v.kids, x);
    KidsOfFacts(v.rest, x);
    if v.id != x {
      DetachFacts(v.kids, x);
      KidsOfDetached(v.rest, x, p);
    } else {
      KidsOfFacts(v.kids, p);
    }
  }

  /** The families around the new children g of c, who are her old ones and the tree of x. */
  lemma {:induction false} FamiliesAround(v: Forest, c: int, x: int, g: Forest, p: int)
    requires Distinct(v) && x in Tops(v) && c in Ids(v) && !Within(v, x, c) && p in Ids(v) && p != c
    requires Distinct(g) && Ids(g) == {x} + Ids(KidsOf(v, x)) + Ids(KidsOf(Detach(v, x), c))
    requires p in Ids(g) ==> KidsOf(g, p) == if Within(v, x, p) then KidsOf(v, p) else KidsOf(Detach(v, x), p)
    ensures Tops(KidsOf(SetKids(Detach(v, x), c, g), p)) == Tops(KidsOf(v, p))
  {
    hide Detach, KidsOf, SetKids, Distinct, Ids, Tops;
    var w := Detach(v, x);
    DetachFacts(v, x);
    KidsOfFacts(v, x);
    KidsOfFacts(w, c);
    KidsOfNewKids(w, c, g, p);
    if !Within(v, x, p) {
      KidsOfDetached(v, x, p);
    }
  }

  lemma {:induction false} KidsOfCons(x: int, k: Forest, r: Forest, p: int)
    requires Distinct(Cons(x, k, r))
    ensures KidsOf(Cons(x, k, r), p) == if p == x then k else if p in Ids(k) then KidsOf(k, p) else KidsOf(r, p)
  {
  }

  lemma {:induction false} KidsOfAppend(f: Forest, g: Forest, p: int)
    requires Distinct(Append(f, g))
    ensures KidsOf(Append(f, g), p) == if p in Ids(f) then KidsOf(f, p) else KidsOf(g, p)
    decreases f
  {
    AppendFacts(f, g);
    if f.Cons? {
      KidsOfAppend(f.rest, g, p);
    }
  }

  /** A reference link puts the root x before the other children of c and changes no other family. */
  lemma {:induction false} EldestFirst(v: Forest, c: int, x: int, p: int)
    requires Distinct(v) && x in Tops(v) && c in Ids(v) && !Within(v, x, c) && p in Ids(v)
    ensures Tops(KidsOf(Eldest(v, c, x), p)) == (if p == c then [x] else []) + Tops(KidsOf(v, p))
  {
    hide Detach, KidsOf, SetKids, Distinct, Ids;
    var w := Detach(v, x);
    var (k, kc) := (KidsOf(v, x), KidsOf(w, c));
    var g := Cons(x, k, kc);
    DetachFacts(v, x);
    KidsOfFacts(v, x);
    KidsOfFacts(w, c);
    TopsAreIds(v);
    MoveFacts(v, c, x);
    ConsFacts(x, k, kc);
    KidsOfDetached(v, x, c);
    if p == c {
      KidsOfNewKids(w, c, g, p);
    } else {
      KidsOfCons(x, k, kc, p);
      FamilyKids(v, x, c, p);
      FamiliesAround(v, c, x, g, p);
      assert [] + Tops(KidsOf(v, p)) == Tops(KidsOf(v, p));
    }
  }

  lemma {:induction false} FamilyKids(v: Forest, x: int, c: int, p: int)
    requires Distinct(v)
    ensures p in Ids(KidsOf(v, x)) ==> KidsOf(KidsOf(v, x), p) == KidsOf(v, p)
    ensures p in Ids(KidsOf(Detach(v, x), c)) ==> KidsOf(KidsOf(Detach(v, x), c), p) == KidsOf(Detach(v, x), p)
  {
    hide Detach, KidsOf, Distinct;
    DetachFacts(v, x);
    if p in Ids(KidsOf(v, x)) {
      KidsOfKids(v, x, p);
    }
    if p in Ids(KidsOf(Detach(v, x), c)) {
      KidsOfKids(Detach(v, x), c, p);
    }
  }

  /** A message's own step puts it, a root by then, behind the other children of c. */
  lemma {:induction false} YoungestLast(v: Forest, c: int, x: int, p: int)
    requires Distinct(v) && x in Tops(v) && c in Ids(v) && !Within(v, x, c) && p in Ids(v)
    ensures Tops(KidsOf(ReferenceLinks.Youngest(v, c, x), p)) == Tops(KidsOf(v, p)) + if p == c then [x] else []
  {
    hide Detach, KidsOf, SetKids, Distinct, Ids, Append;
    var w := Detach(v, x);
    var (k, kc) := (KidsOf(v, x), KidsOf(w, c));
    var one := Cons(x, k, Nil);
    var g := Append(kc, one);
    DetachFacts(v, x);
    KidsOfFacts(v, x);
    KidsOfFacts(w, c);
    TopsAreIds(v);
    MoveFacts(v, c, x);
    ConsFacts(x, k, Nil);
    AppendFacts(kc, one);
    KidsOfDetached(v, x, c);
    if p == c {
      KidsOfNewKids(w, c, g, p);
      TopsAppend(kc, one);
    } else {
      KidsOfCons(x, k, Nil, p);
      KidsOfAppend(kc, one, p);
      FamilyKids(v, x, c, p);
      FamiliesAround(v, c, x, g, p);
      assert Tops(KidsOf(v, p)) + [] == Tops(KidsOf(v, p));
    }
  }
}
