/** A forest sorted by date at every level, ties going to chosen nodes. The final sort may end with this forest,
    since nothing is known of how qsort breaks ties. */
module ForestSort {
  import opened Containers
  import opened Forests
  import opened Linking
  import opened ThreadNodes
  import opened ThreadSort

  /** The thread of id comes before that of x. */
  ghost predicate Before(sc: seq<int>, dates: seq<nat>, first: set<int>, id: int, k: Forest, x: int, kx: Forest) {
    var (d, e) := (DateOf(sc, dates, id, k), DateOf(sc, dates, x, kx));
    d < e || (d == e && (id in first || x !in first))
  }

  /** The thread of id put into the sorted list g. */
  ghost function Put(sc: seq<int>, dates: seq<nat>, first: set<int>, id: int, k: Forest, g: Forest): Forest {
    if g.Nil? || Before(sc, dates, first, id, k, g.id, g.kids) then Cons(id, k, g)
    else Cons(g.id, g.kids, Put(sc, dates, first, id, k, g.rest))
  }

  ghost function Sorted(sc: seq<int>, dates: seq<nat>, first: set<int>, f: Forest): Forest {
    match f
    case Nil => Nil
    case Cons(id, k, r) => Put(sc, dates, first, id, Sorted(sc, dates, first, k), Sorted(sc, dates, first, r))
  }

  lemma {:induction false} PutFacts(sc: seq<int>, dates: seq<nat>, first: set<int>, id: int, k: Forest, g: Forest)
    requires Distinct(Cons(id, k, g))
    ensures var g' := Put(sc, dates, first, id, k, g);
            && Ids(g') == Ids(Cons(id, k, g)) && Distinct(g')
            && (forall y :: y in Tops(g') <==> y == id || y in Tops(g))
            && (forall x :: KidsOf(g', x) == KidsOf(Cons(id, k, g), x))
    decreases g
  {
    if g.Cons? && !Before(sc, dates, first, id, k, g.id, g.kids) {
      PutFacts(sc, dates, first, id, k, g.rest);
      KidsOfFacts(g.kids, id);
      forall x
        ensures KidsOf(Put(sc, dates, first, id, k, g), x) == KidsOf(Cons(id, k, g), x)
      {
        KidsOfFacts(k, x);
        KidsOfFacts(g.kids, x);
      }
    }
  }

  lemma {:induction false} PutSorted(sc: seq<int>, dates: seq<nat>, first: set<int>, id: int, k: Forest, g: Forest)
    requires DateSorted(sc, dates, k) && DateSorted(sc, dates, g)
    ensures DateSorted(sc, dates, Put(sc, dates, first, id, k, g))
    decreases g
  {
    if g.Cons? && !Before(sc, dates, first, id, k, g.id, g.kids) {
      PutSorted(sc, dates, first, id, k, g.rest);
    }
  }

  lemma {:induction false} SortedIsSorted(sc: seq<int>, dates: seq<nat>, first: set<int>, f: Forest)
    ensures DateSorted(sc, dates, Sorted(sc, dates, first, f))
  {
    if f.Cons? {
      SortedIsSorted(sc, dates, first, f.kids);
      SortedIsSorted(sc, dates, first, f.rest);
      PutSorted(sc, dates, first, f.id, Sorted(sc, dates, first, f.kids), Sorted(sc, dates, first, f.rest));
    }
  }

  /** Everybody keeps mother and children. */
  lemma {:induction false} SortedFamilies(sc: seq<int>, dates: seq<nat>, first: set<int>, f: Forest)
    requires Distinct(f)
    ensures SameFamilies(f, Sorted(sc, dates, first, f))
    decreases f
  {
    if f.Cons? {
      var (k, r) := (Sorted(sc, dates, first, f.kids), Sorted(sc, dates, first, f.rest));
      SortedFamilies(sc, dates, first, f.kids);
      SortedFamilies(sc, dates, first, f.rest);
      PutFacts(sc, dates, first, f.id, k, r);
      ConsFamilies(f.id, f.kids, k, f.rest, r);
    }
  }

  lemma ConsFamilies(id: int, k: Forest, k': Forest, r: Forest, r': Forest)
    requires Distinct(Cons(id, k, r)) && SameFamilies(k, k') && SameFamilies(r, r')
    ensures SameFamilies(Cons(id, k, r), Cons(id, k', r'))
  {
    forall x, y
      ensures y in Tops(KidsOf(Cons(id, k', r'), x)) <==> y in Tops(KidsOf(Cons(id, k, r), x))
    {
      assert y in Tops(KidsOf(k', x)) <==> y in Tops(KidsOf(k, x));
      assert y in Tops(KidsOf(r', x)) <==> y in Tops(KidsOf(r, x));
    }
  }

  /** A top of f has the sorted form of its children. */
  lemma {:induction false} SortedKids(sc: seq<int>, dates: seq<nat>, first: set<int>, f: Forest, x: int)
    requires Distinct(f) && x in Tops(f)
    ensures KidsOf(Sorted(sc, dates, first, f), x) == Sorted(sc, dates, first, KidsOf(f, x))
    decreases f
  {
    var (k, r) := (Sorted(sc, dates, first, f.kids), Sorted(sc, dates, first, f.rest));
    SortedFamilies(sc, dates, first, f.kids);
    SortedFamilies(sc, dates, first, f.rest);
    PutFacts(sc, dates, first, f.id, k, r);
    TopsAreIds(f.rest);
    if x != f.id {
      SortedKids(sc, dates, first, f.rest, x);
    }
  }

  lemma MessageDate(sc: seq<int>, dates: seq<nat>, x: int, k: Forest)
    requires IsMessage(sc, x) && ValidCache(sc, |dates|)
    ensures DateOf(sc, dates, x, k) == DateOf(sc, dates, x, Nil)
  {
  }

  /** Of messages, an earliest one that alone is chosen comes first. */
  lemma {:induction false} ChosenIsFirst(sc: seq<int>, dates: seq<nat>, first: set<int>, f: Forest, y: int)
    requires Distinct(f) && AllMessages(sc, f) && ValidCache(sc, |dates|)
    requires y in Tops(f) && y in first && forall z :: z in Tops(f) && z in first ==> z == y
    requires forall z :: z in Tops(f) ==> DateOf(sc, dates, y, Nil) <= DateOf(sc, dates, z, Nil)
    ensures Sorted(sc, dates, first, f).Cons? && Sorted(sc, dates, first, f).id == y
    decreases f
  {
    var (k, r) := (Sorted(sc, dates, first, f.kids), Sorted(sc, dates, first, f.rest));
    AllMessagesIds(sc, f);
    MessageDate(sc, dates, f.id, k);
    if r.Cons? {
      SortedFamilies(sc, dates, first, f.rest);
      TopsAreIds(f.rest);
      assert r.id in Tops(r);
      MessageDate(sc, dates, r.id, r.kids);
    }
    if f.id != y {
      ChosenIsFirst(sc, dates, first, f.rest, y);
      assert f.id in Tops(f);
    }
  }
}
