/** The message containers of the REFERENCES threader: one slot for the cached message and three
    links. A container is named by its index; the link vectors grow as containers are added. */
module Containers {
  import opened Forests

  class ContainerTable {
    var cache: seq<int>     // index of the container's message, NIL for a dummy
    var parent: seq<int>
    var sibling: seq<int>
    var child: seq<int>

    ghost predicate Sized()
      reads this
    {
      |cache| == |parent| == |sibling| == |child|
    }

    constructor ()
      ensures Sized() && |cache| == 0
    {
      cache, parent, sibling, child := [], [], [], [];
    }

    /** A fresh container for message m (or a dummy when m is NIL), with all links null. */
    method Add(m: int) returns (c: int)
      requires Sized()
      modifies this
      ensures Sized() && c == |old(cache)|
      ensures cache == old(cache) + [m]
      ensures parent == old(parent) + [NIL]
      ensures sibling == old(sibling) + [NIL]
      ensures child == old(child) + [NIL]
    {
      c := |cache|;
      cache, parent, sibling, child := cache + [m], parent + [NIL], sibling + [NIL], child + [NIL];
    }
  }

  ghost predicate IsMessage(cache: seq<int>, x: int) {
    0 <= x < |cache| && cache[x] != NIL
  }

  /** The messages held in the forest, in pre-order. */
  ghost function MessagesIn(cache: seq<int>, f: Forest): seq<int> {
    match f
    case Nil => []
    case Cons(id, k, r) =>
      (if IsMessage(cache, id) then [cache[id]] else []) + MessagesIn(cache, k) + MessagesIn(cache, r)
  }

  ghost predicate AllMessages(cache: seq<int>, f: Forest) {
    match f
    case Nil => true
    case Cons(id, k, r) => IsMessage(cache, id) && AllMessages(cache, k) && AllMessages(cache, r)
  }

  ghost function Dummies(cache: seq<int>, f: Forest): nat {
    match f
    case Nil => 0
    case Cons(id, k, r) =>
      (if IsMessage(cache, id) then 0 else 1) + Dummies(cache, k) + Dummies(cache, r)
  }

  lemma AllMessagesIds(cache: seq<int>, f: Forest)
    ensures AllMessages(cache, f) <==> (forall x :: x in Ids(f) ==> IsMessage(cache, x))
    ensures AllMessages(cache, f) <==> Dummies(cache, f) == 0
  {
  }

  lemma AppendMessages(cache: seq<int>, f: Forest, g: Forest)
    ensures AllMessages(cache, Append(f, g)) <==> AllMessages(cache, f) && AllMessages(cache, g)
    ensures Dummies(cache, Append(f, g)) == Dummies(cache, f) + Dummies(cache, g)
    ensures MessagesIn(cache, Append(f, g)) == MessagesIn(cache, f) + MessagesIn(cache, g)
  {
  }
}
