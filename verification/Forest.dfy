/** Ordered forests in first-child / next-sibling form, and how raw index links encode them.

    The threading code keeps its containers and its nodes in exactly this form: one link to the
    eldest child, one link to the next younger sister. A Forest is the tree structure those links
    denote; `Chain` says that they do. */
module Forests {

  /** The null link. */
  const NIL: int := -1

  datatype Forest = Nil | Cons(id: int, kids: Forest, rest: Forest)

  ghost function Ids(f: Forest): set<int> {
    match f
    case Nil => {}
    case Cons(id, k, r) => {id} + Ids(k) + Ids(r)
  }

  /** No identifier occurs twice. */
  ghost predicate Distinct(f: Forest) {
    match f
    case Nil => true
    case Cons(id, k, r) =>
      && id !in Ids(k)
      && id !in Ids(r)
      && Ids(k) !! Ids(r)
      && Distinct(k)
      && Distinct(r)
  }

  ghost function Size(f: Forest): nat {
    match f
    case Nil => 0
    case Cons(_, k, r) => 1 + Size(k) + Size(r)
  }

  ghost function Append(f: Forest, g: Forest): Forest {
    match f
    case Nil => g
    case Cons(id, k, r) => Cons(id, k, Append(r, g))
  }

  /** The identifiers of the trees at the top of the forest, in order. */
  ghost function Tops(f: Forest): seq<int> {
    match f
    case Nil => []
    case Cons(id, _, r) => [id] + Tops(r)
  }

  ghost function Last(f: Forest): int
    requires f.Cons?
  {
    if f.rest.Nil? then f.id else Last(f.rest)
  }

  /** a is a proper ancestor of d. */
  ghost predicate Above(f: Forest, a: int, d: int) {
    match f
    case Nil => false
    case Cons(id, k, r) => (a == id && d in Ids(k)) || Above(k, a, d) || Above(r, a, d)
  }

  /** Link p and the two link vectors encode exactly the forest f. */
  ghost predicate Chain(child: seq<int>, sib: seq<int>, p: int, f: Forest)
    decreases f
  {
    match f
    case Nil => p == NIL
    case Cons(id, k, r) =>
      && p == id
      && 0 <= id < |child|
      && id < |sib|
      && Chain(child, sib, child[id], k)
      && Chain(child, sib, sib[id], r)
  }

  /** The vectors s and t agree on the given indices. */
  ghost predicate Same(s: seq<int>, t: seq<int>, on: set<int>) {
    |s| <= |t| && forall x :: x in on && 0 <= x < |s| ==> t[x] == s[x]
  }

  /** Outside the given indices, t is s. */
  ghost predicate Except(s: seq<int>, t: seq<int>, off: set<int>) {
    |s| == |t| && forall x :: 0 <= x < |s| && x !in off ==> t[x] == s[x]
  }

  // ----- concatenation -----

  lemma AppendFacts(f: Forest, g: Forest)
    ensures Ids(Append(f, g)) == Ids(f) + Ids(g)
    ensures Distinct(Append(f, g)) <==> Distinct(f) && Distinct(g) && Ids(f) !! Ids(g)
    ensures Size(Append(f, g)) == Size(f) + Size(g)
  {
  }

  lemma AppendAssoc(f: Forest, g: Forest, h: Forest)
    ensures Append(Append(f, g), h) == Append(f, Append(g, h))
  {
  }

  lemma AppendNil(f: Forest)
    ensures Append(f, Nil) == f
  {
  }

  lemma TopsAppend(f: Forest, g: Forest)
    ensures Tops(Append(f, g)) == Tops(f) + Tops(g)
  {
    if f.Cons? {
      TopsAppend(f.rest, g);
    }
  }

  lemma LastAppend(f: Forest, g: Forest)
    requires g.Cons?
    ensures Append(f, g).Cons? && Last(Append(f, g)) == Last(g)
  {
  }

  lemma LastInIds(f: Forest)
    requires f.Cons?
    ensures Last(f) in Ids(f)
  {
  }

  // ----- encoding -----

  /** Links outside the forest do not matter. */
  lemma {:induction false} ChainFrame(child: seq<int>, sib: seq<int>, child': seq<int>, sib': seq<int>, p: int,
                                      f: Forest)
    requires Chain(child, sib, p, f)
    requires Same(child, child', Ids(f)) && Same(sib, sib', Ids(f))
    ensures Chain(child', sib', p, f)
    decreases f
  {
    if f.Cons? {
      ChainFrame(child, sib, child', sib', child[f.id], f.kids);
      ChainFrame(child, sib, child', sib', sib[f.id], f.rest);
    }
  }

  lemma ChainHead(child: seq<int>, sib: seq<int>, p: int, f: Forest)
    requires Chain(child, sib, p, f) && f.Cons?
    ensures p == f.id && p in Ids(f) && 0 <= p < |child| && p < |sib|
  {
  }

  lemma {:induction false} ChainInRange(child: seq<int>, sib: seq<int>, p: int, f: Forest)
    requires Chain(child, sib, p, f)
    ensures forall x :: x in Ids(f) ==> 0 <= x < |child| && x < |sib|
    decreases f
  {
    if f.Cons? {
      ChainInRange(child, sib, child[f.id], f.kids);
      ChainInRange(child, sib, sib[f.id], f.rest);
    }
  }

  /** A chain of f followed by g can be entered at g. */
  lemma {:induction false} ChainSuffix(child: seq<int>, sib: seq<int>, p: int, f: Forest, g: Forest)
    requires Chain(child, sib, p, Append(f, g))
    ensures f.Nil? ==> Chain(child, sib, p, g)
    ensures f.Cons? ==> 0 <= Last(f) < |sib| && Chain(child, sib, sib[Last(f)], g)
    decreases f
  {
    if f.Cons? {
      ChainSuffix(child, sib, sib[f.id], f.rest, g);
    }
  }

  /** The sister link of the last top entry of f decides what follows f. */
  lemma {:induction false} ChainRetail(child: seq<int>, sib: seq<int>, child': seq<int>, sib': seq<int>,
                                       p: int, f: Forest, g: Forest, g': Forest)
    requires f.Cons? && Distinct(f)
    requires Chain(child, sib, p, Append(f, g))
    requires Same(child, child', Ids(f)) && Same(sib, sib', Ids(f) - {Last(f)})
    requires 0 <= Last(f) < |sib'| && Chain(child', sib', sib'[Last(f)], g')
    ensures Chain(child', sib', p, Append(f, g'))
    decreases f
  {
    LastInIds(f);
    if f.rest.Cons? {
      LastInIds(f.rest);
      ChainRetail(child, sib, child', sib', sib[f.id], f.rest, g, g');
    }
    ChainFrame(child, sib, child', sib', child[f.id], f.kids);
  }

  /** Follow sister links to the youngest sister. */
  method Youngest(ghost child: seq<int>, sib: seq<int>, p: int, ghost f: Forest) returns (l: int)
    requires f.Cons? && Chain(child, sib, p, f)
    ensures l == Last(f)
  {
    l := p;
    ghost var g := f;
    while sib[l] != NIL
      invariant g.Cons? && Chain(child, sib, l, g) && Last(g) == Last(f)
      decreases g
    {
      l := sib[l];
      g := g.rest;
    }
  }
}
