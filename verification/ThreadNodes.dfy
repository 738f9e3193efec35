/** Thread nodes and their construction from pruned containers. */
module ThreadNodes {
  import opened Containers
  import opened Forests
  import opened Messages
  import opened Prune

  /** All thread nodes made so far; a node is named by its index. */
  class NodeTable {
    var sc: seq<int>        // index of the node's message, NIL for a dummy
    var num: seq<nat>       // its number as the caller asked for it
    var branch: seq<int>    // next younger sister
    var next: seq<int>      // eldest child

    ghost predicate Sized()
      reads this
    {
      |sc| == |num| == |branch| == |next|
    }

    constructor ()
      ensures Sized() && |sc| == 0
    {
      sc, num, branch, next := [], [], [], [];
    }

    /** mail_newthreadnode */
    method Add(s: int) returns (c: int)
      requires Sized()
      modifies this
      ensures Sized() && c == |old(sc)|
      ensures sc == old(sc) + [s] && num == old(num) + [0]
      ensures branch == old(branch) + [NIL] && next == old(next) + [NIL]
    {
      c := |sc|;
      sc, num, branch, next := sc + [s], num + [0], branch + [NIL], next + [NIL];
    }
  }

  /** A node is a dummy or holds one of n messages. */
  ghost predicate ValidCache(sc: seq<int>, n: nat) {
    forall x :: 0 <= x < |sc| ==> sc[x] == NIL || 0 <= sc[x] < n
  }

  /** The number a node shows is that of its message; a dummy shows none. */
  ghost predicate Numbered(msgs: seq<Message>, sc: seq<int>, num: seq<nat>) {
    && |sc| == |num| && ValidCache(sc, |msgs|)
    && forall x :: 0 <= x < |sc| ==> num[x] == if sc[x] == NIL then 0 else msgs[sc[x]].number
  }

  // ----- building the nodes -----

  /** g has the shape of f and holds the same messages in the same places. */
  ghost predicate Mirrors(cache: seq<int>, f: Forest, sc: seq<int>, g: Forest) {
    match f
    case Nil => g.Nil?
    case Cons(id, k, r) =>
      && g.Cons?
      && 0 <= id < |cache| && 0 <= g.id < |sc| && sc[g.id] == cache[id]
      && Mirrors(cache, k, sc, g.kids)
      && Mirrors(cache, r, sc, g.rest)
  }

  lemma MirrorsLonger(cache: seq<int>, f: Forest, sc: seq<int>, sc': seq<int>, g: Forest)
    requires Mirrors(cache, f, sc, g) && sc <= sc'
    ensures Mirrors(cache, f, sc', g)
  {
  }

  lemma MirrorsAppend(cache: seq<int>, f: Forest, f': Forest, sc: seq<int>, g: Forest, g': Forest)
    requires Mirrors(cache, f, sc, g) && Mirrors(cache, f', sc, g')
    ensures Mirrors(cache, Append(f, f'), sc, Append(g, g'))
  {
  }

  /** Everything the later steps rely on carries over from containers to nodes. */
  lemma {:induction false} MirrorsFacts(cache: seq<int>, f: Forest, sc: seq<int>, g: Forest)
    requires Mirrors(cache, f, sc, g)
    ensures MessagesIn(sc, g) == MessagesIn(cache, f)
    ensures AllMessages(cache, f) ==> AllMessages(sc, g)
    ensures Tidy(cache, f) ==> Tidy(sc, g)
  {
    if f.Cons? {
      MirrorsFacts(cache, f.kids, sc, g.kids);
      MirrorsFacts(cache, f.rest, sc, g.rest);
      if f.kids.Cons? {
        assert Mirrors(cache, f.kids.rest, sc, g.kids.rest);
      }
    }
  }

  ghost predicate Between(f: Forest, lo: int, hi: int) {
    forall x :: x in Ids(f) ==> lo <= x < hi
  }

  /** The first n links are as they were. */
  ghost predicate Keeps(s: seq<int>, s': seq<int>, n: nat) {
    n <= |s| <= |s'| && forall x :: 0 <= x < n ==> s'[x] == s[x]
  }

  /** mail_thread_c2node: a node for each container of f, linked alike. */
  method C2Node(t: ContainerTable, con: int, nodes: NodeTable, msgs: seq<Message>, ghost f: Forest)
    returns (ret: int, ghost g: Forest)
    requires t.Sized() && Chain(t.child, t.sibling, con, f)
    requires forall x :: 0 <= x < |t.cache| ==> t.cache[x] == NIL || 0 <= t.cache[x] < |msgs|
    requires nodes.Sized() && Numbered(msgs, nodes.sc, nodes.num)
    modifies nodes
    ensures nodes.Sized() && Numbered(msgs, nodes.sc, nodes.num)
    ensures old(nodes.sc) <= nodes.sc && Keeps(old(nodes.branch), nodes.branch, |old(nodes.sc)|)
            && Keeps(old(nodes.next), nodes.next, |old(nodes.sc)|)
    ensures Chain(nodes.next, nodes.branch, ret, g) && Mirrors(t.cache, f, nodes.sc, g)
    ensures Distinct(g) && Between(g, |old(nodes.sc)|, |nodes.sc|)
    decreases f, 1
  {
    ret, g := NIL, Nil;
    var cur, c := NIL, con;
    ghost var done, todo := Nil, f;
    while c != NIL
      invariant Chain(t.child, t.sibling, c, todo) && Append(done, todo) == f && (todo == f || todo < f)
      invariant nodes.Sized() && Numbered(msgs, nodes.sc, nodes.num)
      invariant old(nodes.sc) <= nodes.sc && Keeps(old(nodes.branch), nodes.branch, |old(nodes.sc)|)
                && Keeps(old(nodes.next), nodes.next, |old(nodes.sc)|)
      invariant Chain(nodes.next, nodes.branch, ret, g) && Mirrors(t.cache, done, nodes.sc, g)
      invariant Distinct(g) && Between(g, |old(nodes.sc)|, |nodes.sc|)
      invariant if g.Nil? then ret == NIL else cur == Last(g) && ret != NIL
      decreases todo
    {
      ghost var one := Cons(c, todo.kids, Nil);
      AppendAssoc(done, one, todo.rest);
      ret, cur, g := AddNode(t, c, nodes, msgs, ret, cur, todo.kids, done, g, f, |old(nodes.sc)|);
      done, todo := Append(done, one), todo.rest;
      c := t.sibling[c];
    }
    AppendNil(done);
  }

  /** One round of mail_thread_c2node: a node for container c and everything below it. */
  method AddNode(t: ContainerTable, c: int, nodes: NodeTable, msgs: seq<Message>, ret: int, cur: int,
                 ghost k: Forest, ghost done: Forest, ghost g: Forest, ghost f: Forest, ghost lo: nat)
    returns (ret': int, cur': int, ghost g': Forest)
    requires t.Sized() && 0 <= c < |t.cache| && Chain(t.child, t.sibling, t.child[c], k) && k < f
    requires forall x :: 0 <= x < |t.cache| ==> t.cache[x] == NIL || 0 <= t.cache[x] < |msgs|
    requires nodes.Sized() && Numbered(msgs, nodes.sc, nodes.num)
    requires Chain(nodes.next, nodes.branch, ret, g) && Mirrors(t.cache, done, nodes.sc, g)
    requires Distinct(g) && Between(g, lo, |nodes.sc|) && lo <= |nodes.sc|
    requires if g.Nil? then ret == NIL else cur == Last(g) && ret != NIL
    modifies nodes
    ensures nodes.Sized() && Numbered(msgs, nodes.sc, nodes.num)
    ensures old(nodes.sc) <= nodes.sc && Keeps(old(nodes.branch), nodes.branch, lo)
            && Keeps(old(nodes.next), nodes.next, |old(nodes.sc)|)
    ensures Chain(nodes.next, nodes.branch, ret', g') && Mirrors(t.cache, Append(done, Cons(c, k, Nil)), nodes.sc, g')
    ensures Distinct(g') && Between(g', lo, |nodes.sc|)
    ensures g'.Cons? && cur' == Last(g') && ret' != NIL
    decreases f, 0, 2
  {
    ghost var gk;
    ret', cur', gk := MakeNode(t, c, nodes, msgs, ret, cur, k, g, f, lo);
    g' := Append(g, Cons(cur', gk, Nil));
    NodeHung(old(nodes.next), old(nodes.branch), nodes.next, nodes.branch, ret, cur', g, gk);
    NodeMirrors(t.cache, done, c, k, old(nodes.sc), nodes.sc, g, cur', gk);
  }

  /** A node for container c, at the end of the list g, and the nodes below it. */
  method MakeNode(t: ContainerTable, c: int, nodes: NodeTable, msgs: seq<Message>, ret: int, cur: int,
                  ghost k: Forest, ghost g: Forest, ghost f: Forest, ghost lo: nat)
    returns (ret': int, n: int, ghost gk: Forest)
    requires t.Sized() && 0 <= c < |t.cache| && Chain(t.child, t.sibling, t.child[c], k) && k < f
    requires forall x :: 0 <= x < |t.cache| ==> t.cache[x] == NIL || 0 <= t.cache[x] < |msgs|
    requires nodes.Sized() && Numbered(msgs, nodes.sc, nodes.num)
    requires Between(g, lo, |nodes.sc|) && lo <= |nodes.sc|
    requires if g.Nil? then ret == NIL else cur == Last(g) && ret != NIL
    modifies nodes
    ensures nodes.Sized() && Numbered(msgs, nodes.sc, nodes.num)
    ensures n == |old(nodes.sc)| && old(nodes.sc) < nodes.sc && nodes.sc[n] == t.cache[c]
    ensures ret' == if g.Nil? then n else ret
    ensures Keeps(old(nodes.branch), nodes.branch, lo) && Keeps(old(nodes.next), nodes.next, n)
    ensures g.Cons? ==> 0 <= Last(g) < n && nodes.branch[Last(g)] == n
    ensures forall x :: 0 <= x < n && (g.Cons? ==> x != Last(g)) ==> nodes.branch[x] == old(nodes.branch)[x]
    ensures nodes.branch[n] == NIL && Chain(nodes.next, nodes.branch, nodes.next[n], gk)
    ensures Mirrors(t.cache, k, nodes.sc, gk) && Distinct(gk) && Between(gk, n + 1, |nodes.sc|)
    decreases f, 0, 1
  {
    ret', n := NewNode(nodes, t.cache[c], msgs, ret, cur, g, lo);
    gk := HangKids(t, c, nodes, msgs, n, k, f);
  }

  /** Build the nodes below the new node n. */
  method HangKids(t: ContainerTable, c: int, nodes: NodeTable, msgs: seq<Message>, n: int, ghost k: Forest,
                  ghost f: Forest)
    returns (ghost gk: Forest)
    requires t.Sized() && 0 <= c < |t.cache| && Chain(t.child, t.sibling, t.child[c], k) && k < f
    requires forall x :: 0 <= x < |t.cache| ==> t.cache[x] == NIL || 0 <= t.cache[x] < |msgs|
    requires nodes.Sized() && Numbered(msgs, nodes.sc, nodes.num)
    requires 0 <= n < |nodes.sc| && n == |nodes.sc| - 1 && nodes.next[n] == NIL
    modifies nodes
    ensures nodes.Sized() && Numbered(msgs, nodes.sc, nodes.num)
    ensures old(nodes.sc) <= nodes.sc && Keeps(old(nodes.branch), nodes.branch, |old(nodes.sc)|)
            && Keeps(old(nodes.next), nodes.next, n)
    ensures Chain(nodes.next, nodes.branch, nodes.next[n], gk) && Mirrors(t.cache, k, nodes.sc, gk)
    ensures Distinct(gk) && Between(gk, n + 1, |nodes.sc|)
    decreases f, 0, 0
  {
    gk := Nil;
    if t.child[c] != NIL {
      var kids;
      kids, gk := C2Node(t, t.child[c], nodes, msgs, k);
      ghost var n2 := nodes.next;
      nodes.next := nodes.next[n := kids];
      ChainFrame(n2, nodes.branch, nodes.next, nodes.branch, kids, gk);
    }
  }

  lemma NodeHung(next: seq<int>, branch: seq<int>, next': seq<int>, branch': seq<int>, ret: int, n: int, g: Forest,
                 gk: Forest)
    requires Chain(next, branch, ret, g) && Distinct(g) && |next| == |branch| == n < |next'| == |branch'|
    requires Keeps(next, next', n) && (if g.Nil? then ret == NIL else 0 <= Last(g) < n && branch'[Last(g)] == n)
    requires forall x :: 0 <= x < n && (g.Cons? ==> x != Last(g)) ==> branch'[x] == branch[x]
    requires branch'[n] == NIL && Chain(next', branch', next'[n], gk)
    ensures Chain(next', branch', if g.Nil? then n else ret, Append(g, Cons(n, gk, Nil)))
  {
    if g.Cons? {
      AppendNil(g);
      LastInIds(g);
      ChainInRange(next, branch, ret, g);
      ChainRetail(next, branch, next', branch', ret, g, Nil, Cons(n, gk, Nil));
    }
  }

  lemma NodeMirrors(cache: seq<int>, done: Forest, c: int, k: Forest, sc: seq<int>, sc': seq<int>, g: Forest, n: int,
                    gk: Forest)
    requires Mirrors(cache, done, sc, g) && sc < sc' && n == |sc| && 0 <= c < |cache| && sc'[n] == cache[c]
    requires Mirrors(cache, k, sc', gk) && Between(gk, n + 1, |sc'|) && Distinct(gk)
    requires Distinct(g) && Between(g, 0, n)
    ensures var g' := Append(g, Cons(n, gk, Nil));
            && Mirrors(cache, Append(done, Cons(c, k, Nil)), sc', g')
            && Distinct(g') && Ids(g') == Ids(g) + {n} + Ids(gk) && Last(g') == n
  {
    var one := Cons(n, gk, Nil);
    assert Ids(one) == {n} + Ids(gk) && Distinct(one);
    forall x | x in Ids(g)
      ensures x !in Ids(one)
    {
      assert 0 <= x < n;
    }
    assert Ids(g) * Ids(one) == {};
    AppendFacts(g, one);
    assert Distinct(Append(g, one));
    LastAppend(g, one);
    MirrorsLonger(cache, done, sc, sc', g);
    MirrorsAppend(cache, done, Cons(c, k, Nil), sc', g, one);
  }

  /** Make a node for message s (or a dummy) the youngest sister of the list built so far. */
  method NewNode(nodes: NodeTable, s: int, msgs: seq<Message>, ret: int, cur: int, ghost g: Forest, ghost lo: nat)
    returns (ret': int, n: int)
    requires nodes.Sized() && Numbered(msgs, nodes.sc, nodes.num) && (s == NIL || 0 <= s < |msgs|)
    requires Between(g, lo, |nodes.sc|) && lo <= |nodes.sc|
    requires if g.Nil? then ret == NIL else cur == Last(g) && ret != NIL
    modifies nodes
    ensures nodes.Sized() && Numbered(msgs, nodes.sc, nodes.num)
    ensures n == |old(nodes.sc)| && ret' == if g.Nil? then n else ret
    ensures nodes.sc == old(nodes.sc) + [s] && nodes.next == old(nodes.next) + [NIL]
    ensures g.Cons? ==> 0 <= Last(g) < n
    ensures nodes.branch == if g.Nil? then old(nodes.branch) + [NIL] else (old(nodes.branch) + [NIL])[Last(g) := n]
    ensures Keeps(old(nodes.branch), nodes.branch, lo)
  {
    n := nodes.Add(s);
    ret' := ret;
    if g.Cons? {
      LastInIds(g);
    }
    if ret != NIL {
      nodes.branch := nodes.branch[cur := n];
    } else {
      ret' := n;
    }
    if s != NIL {
      nodes.num := nodes.num[n := msgs[s].number];
    }
  }
}
