/** Rearranging the trees at the top of a forest, each keeping what hangs below it. */
module Arrange {
  import opened Forests
  import opened Linking

  /** The trees of v whose roots are listed in order, in that order. */
  ghost function Arranged(order: seq<int>, v: Forest): Forest {
    if order == [] then Nil else Cons(order[0], KidsOf(v, order[0]), Arranged(order[1..], v))
  }

  ghost predicate NoRepeat(s: seq<int>) {
    forall i, j :: 0 <= i < j < |s| ==> s[i] != s[j]
  }

  lemma ArrangedTops(order: seq<int>, v: Forest)
    ensures Tops(Arranged(order, v)) == order
  {
    if order != [] {
      ArrangedTops(order[1..], v);
    }
  }

  lemma ArrangedMore(order: seq<int>, x: int, v: Forest)
    ensures Arranged(order + [x], v) == Append(Arranged(order, v), Cons(x, KidsOf(v, x), Nil))
  {
    if order != [] {
      assert (order + [x])[1..] == order[1..] + [x];
      ArrangedMore(order[1..], x, v);
    } else {
      assert [x][1..] == [];
    }
  }

  lemma TopsApart(v: Forest, x: int, y: int)
    requires Distinct(v) && x in Tops(v) && y in Tops(v) && x != y
    ensures y !in Ids(KidsOf(v, x)) && Ids(KidsOf(v, x)) !! Ids(KidsOf(v, y))
  {
    TopsAreIds(v.rest);
    KidsOfFacts(v.rest, x);
    KidsOfFacts(v.rest, y);
    KidsOfFacts(v.kids, x);
    KidsOfFacts(v.kids, y);
  }

  lemma {:induction false} ArrangedIds(order: seq<int>, v: Forest)
    requires Distinct(v) && NoRepeat(order) && forall x :: x in order ==> x in Tops(v)
    ensures Distinct(Arranged(order, v)) && Ids(Arranged(order, v)) <= Ids(v)
    ensures forall x :: x in order ==> {x} + Ids(KidsOf(v, x)) <= Ids(Arranged(order, v))
    ensures forall y :: y in Tops(v) && y !in order ==> {y} + Ids(KidsOf(v, y)) !! Ids(Arranged(order, v))
  {
    if order != [] {
      var x, rest := order[0], order[1..];
      assert forall z :: z in rest ==> z in order;
      assert x !in rest;
      ArrangedIds(rest, v);
      KidsOfFacts(v, x);
      TopsAreIds(v);
      assert x in Tops(v);
      forall y | y in Tops(v) && y !in order
        ensures {y} + Ids(KidsOf(v, y)) !! Ids(Arranged(order, v))
      {
        TopsApart(v, x, y);
        TopsApart(v, y, x);
      }
    }
  }

  /** Every identifier is a top or below one. */
  lemma {:induction false} UnderSomeTop(v: Forest, y: int) returns (x: int)
    requires Distinct(v) && y in Ids(v)
    ensures x in Tops(v) && Within(v, x, y)
    decreases v
  {
    if y == v.id || y in Ids(v.kids) {
      x := v.id;
    } else {
      x := UnderSomeTop(v.rest, y);
      TopsAreIds(v.rest);
    }
  }

  /** Listing every top exactly once rearranges the forest and changes nothing below. */
  lemma {:induction false} ArrangedFacts(order: seq<int>, v: Forest)
    requires Distinct(v) && NoRepeat(order) && forall x :: x in order <==> x in Tops(v)
    ensures Distinct(Arranged(order, v)) && Ids(Arranged(order, v)) == Ids(v)
    ensures Tops(Arranged(order, v)) == order
    ensures forall x :: KidsOf(Arranged(order, v), x) == KidsOf(v, x)
  {
    ArrangedIds(order, v);
    ArrangedTops(order, v);
    forall y | y in Ids(v)
      ensures y in Ids(Arranged(order, v))
    {
      var x := UnderSomeTop(v, y);
    }
    forall x
      ensures KidsOf(Arranged(order, v), x) == KidsOf(v, x)
    {
      ArrangedKids(order, v, x);
      if x !in Ids(v) {
        KidsOfFacts(v, x);
      }
    }
  }

  lemma {:induction false} ArrangedKids(order: seq<int>, v: Forest, x: int)
    requires Distinct(v) && NoRepeat(order) && forall z :: z in order ==> z in Tops(v)
    ensures KidsOf(Arranged(order, v), x) == if x in Ids(Arranged(order, v)) then KidsOf(v, x) else Nil
    decreases |order|
  {
    if order != [] {
      var r, rest := order[0], order[1..];
      assert forall z :: z in rest ==> z in order;
      assert r in Tops(v);
      ArrangedKids(rest, v, x);
      ArrangedIds(rest, v);
      KidsOfFacts(KidsOf(v, r), x);
      if x in Ids(KidsOf(v, r)) {
        KidsOfKids(v, r, x);
      }
    }
  }

  /** Ancestry depends only on what hangs below each identifier. */
  lemma {:induction false} AboveIsBelow(f: Forest, a: int, d: int)
    requires Distinct(f)
    ensures Above(f, a, d) <==> d in Ids(KidsOf(f, a))
  {
    if f.Cons? {
      KidsOfFacts(f.kids, a);
      KidsOfFacts(f.rest, a);
      AboveIsBelow(f.kids, a, d);
      AboveIsBelow(f.rest, a, d);
      AboveOnlyInside(f.kids, a, d);
      AboveOnlyInside(f.rest, a, d);
    }
  }

  lemma {:induction false} AboveOnlyInside(f: Forest, a: int, d: int)
    ensures Above(f, a, d) ==> a in Ids(f) && d in Ids(f)
  {
    if f.Cons? {
      AboveOnlyInside(f.kids, a, d);
      AboveOnlyInside(f.rest, a, d);
    }
  }
}
