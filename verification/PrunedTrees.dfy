/** Pruning and the trees at top level: no two threads are joined and none is torn apart. */
module PrunedTrees {
  import opened Containers
  import opened Forests
  import opened Prune

  /** a and d are in one tree of f. */
  ghost predicate Together(f: Forest, a: int, d: int) {
    match f
    case Nil => false
    case Cons(id, k, r) => ((a == id || a in Ids(k)) && (d == id || d in Ids(k))) || Together(r, a, d)
  }

  lemma {:induction false} TogetherAppend(f: Forest, g: Forest, a: int, d: int)
    ensures Together(Append(f, g), a, d) <==> Together(f, a, d) || Together(g, a, d)
  {
    if f.Cons? {
      TogetherAppend(f.rest, g, a, d);
    }
  }

  lemma MessagesStay(cache: seq<int>, k: Forest, a: int)
    requires IsMessage(cache, a)
    ensures a in Ids(Pruned(cache, k, false)) <==> a in Ids(k)
  {
    PrunedIds(cache, k, false);
  }

  /** Two messages are in one tree after pruning exactly when they were before: a dummy with several threads below it
      stays to hold them together. */
  lemma {:induction false} PrunedKeepsTrees(cache: seq<int>, f: Forest, a: int, d: int)
    requires IsMessage(cache, a) && IsMessage(cache, d)
    ensures Together(Pruned(cache, f, true), a, d) <==> Together(f, a, d)
    decreases f
  {
    if f.Cons? {
      PrunedKeepsTrees(cache, f.rest, a, d);
      MessagesStay(cache, f.kids, a);
      MessagesStay(cache, f.kids, d);
      var k := Pruned(cache, f.kids, false);
      TogetherAppend(k, Pruned(cache, f.rest, true), a, d);
      if k.Cons? && k.rest.Nil? {
        assert Together(k, a, d) <==> (a == k.id || a in Ids(k.kids)) && (d == k.id || d in Ids(k.kids));
      }
    }
  }
}
