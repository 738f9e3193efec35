/** Step 3 of REFERENCES threading: pruning dummy containers by in-place promotion.

    The code works on raw links and re-prunes what it has just promoted. `Pruned` is the tree it
    ends with, given by one structural recursion; the lemmas say what that tree means, and the
    methods at the end are the link surgery, proved to produce it. */
module Prune {
  import opened Forests
  import opened Containers

  // ----- what pruning produces -----

  /** The pruned form of the sister list f; top says that its mother is the root. */
  ghost function Pruned(cache: seq<int>, f: Forest, top: bool): Forest {
    match f
    case Nil => Nil
    case Cons(id, k, r) =>
      var k' := Pruned(cache, k, false);
      var r' := Pruned(cache, r, top);
      if IsMessage(cache, id) then Cons(id, k', r')
      else if k'.Nil? then r'
      else if !top || k'.rest.Nil? then Append(k', r')
      else Cons(id, k', r')
  }

  /** The list in place of f once only its first position has been settled. */
  ghost function HeadPruned(cache: seq<int>, f: Forest, top: bool): Forest {
    match f
    case Nil => Nil
    case Cons(id, k, r) =>
      var k' := Pruned(cache, k, false);
      if IsMessage(cache, id) then Cons(id, k', r)
      else if k'.Nil? then HeadPruned(cache, r, top)
      else if !top || k'.rest.Nil? then Append(k', r)
      else Cons(id, k', r)
  }

  /** Dummies only at top level, each with at least two children, all of them messages. */
  ghost predicate Tidy(cache: seq<int>, f: Forest) {
    match f
    case Nil => true
    case Cons(id, k, r) =>
      && AllMessages(cache, k)
      && (!IsMessage(cache, id) ==> k.Cons? && k.rest.Cons?)
      && Tidy(cache, r)
  }

  lemma PrunedInside(cache: seq<int>, f: Forest)
    ensures AllMessages(cache, Pruned(cache, f, false))
  {
    if f.Cons? {
      AppendMessages(cache, Pruned(cache, f.kids, false), Pruned(cache, f.rest, false));
    }
  }

  lemma TidyAppend(cache: seq<int>, f: Forest, g: Forest)
    requires AllMessages(cache, f) && Tidy(cache, g)
    ensures Tidy(cache, Append(f, g))
  {
  }

  /** What is left of the dummies: none below the top level, and none there with fewer than two
      children. */
  lemma {:induction false} PrunedTidy(cache: seq<int>, f: Forest)
    ensures Tidy(cache, Pruned(cache, f, true))
  {
    if f.Cons? {
      PrunedTidy(cache, f.rest);
      PrunedInside(cache, f.kids);
      TidyAppend(cache, Pruned(cache, f.kids, false), Pruned(cache, f.rest, true));
    }
  }

  /** Pruning keeps every message and their pre-order. */
  lemma {:induction false} PrunedKeepsMessages(cache: seq<int>, f: Forest, top: bool)
    ensures MessagesIn(cache, Pruned(cache, f, top)) == MessagesIn(cache, f)
    decreases f
  {
    if f.Cons? {
      PrunedKeepsMessages(cache, f.kids, false);
      PrunedKeepsMessages(cache, f.rest, top);
      AppendMessages(cache, Pruned(cache, f.kids, false), Pruned(cache, f.rest, top));
    }
  }

  lemma PrunedIds(cache: seq<int>, f: Forest, top: bool)
    ensures Ids(Pruned(cache, f, top)) <= Ids(f)
    ensures forall x :: x in Ids(f) && IsMessage(cache, x) ==> x in Ids(Pruned(cache, f, top))
    ensures Distinct(f) ==> Distinct(Pruned(cache, f, top))
    decreases f
  {
    if f.Cons? {
      PrunedIds(cache, f.kids, false);
      PrunedIds(cache, f.rest, top);
      AppendFacts(Pruned(cache, f.kids, false), Pruned(cache, f.rest, top));
    }
  }

  lemma AboveAppend(f: Forest, g: Forest, a: int, d: int)
    ensures Above(Append(f, g), a, d) <==> Above(f, a, d) || Above(g, a, d)
  {
    if f.Cons? {
      AboveAppend(f.rest, g, a, d);
    }
  }

  /** Pruning neither adds nor removes an ancestor between messages. */
  lemma {:induction false} PrunedKeepsAncestors(cache: seq<int>, f: Forest, top: bool, a: int, d: int)
    requires IsMessage(cache, a) && IsMessage(cache, d)
    ensures Above(Pruned(cache, f, top), a, d) <==> Above(f, a, d)
    decreases f
  {
    if f.Cons? {
      PrunedKeepsAncestors(cache, f.kids, false, a, d);
      PrunedKeepsAncestors(cache, f.rest, top, a, d);
      PrunedIds(cache, f.kids, false);
      AboveAppend(Pruned(cache, f.kids, false), Pruned(cache, f.rest, top), a, d);
    }
  }

  // ----- why pruning again changes nothing -----

  lemma PrunedStable(cache: seq<int>, f: Forest, top: bool)
    requires AllMessages(cache, f)
    ensures Pruned(cache, f, top) == f
  {
  }

  lemma {:induction false} PrunedAppend(cache: seq<int>, f: Forest, g: Forest, top: bool)
    ensures Pruned(cache, Append(f, g), top) == Append(Pruned(cache, f, top), Pruned(cache, g, top))
    decreases f
  {
    if f.Cons? {
      PrunedAppend(cache, f.rest, g, top);
      AppendAssoc(Pruned(cache, f.kids, false), Pruned(cache, f.rest, top), Pruned(cache, g, top));
    }
  }

  /** Settling the first position and pruning the sisters after it prunes the whole list. */
  lemma {:induction false} HeadThenRest(cache: seq<int>, f: Forest, top: bool)
    ensures var h := HeadPruned(cache, f, top);
            Pruned(cache, f, top) == if h.Nil? then Nil else Cons(h.id, h.kids, Pruned(cache, h.rest, top))
    decreases f
  {
    if f.Cons? {
      var k' := Pruned(cache, f.kids, false);
      if !IsMessage(cache, f.id) {
        if k'.Nil? {
          HeadThenRest(cache, f.rest, top);
        } else if !top || k'.rest.Nil? {
          PrunedInside(cache, f.kids);
          PrunedAppend(cache, k'.rest, f.rest, top);
          PrunedStable(cache, k'.rest, top);
        }
      }
    }
  }

  /** Promoted children are messages already pruned, so pruning them where they land is idle. */
  lemma PromotedIsSettled(cache: seq<int>, k: Forest, r: Forest, top: bool)
    requires AllMessages(cache, k) && k.Cons?
    ensures HeadPruned(cache, Append(k, r), top) == Append(k, r)
  {
    PrunedStable(cache, k.kids, false);
  }

  /** The sisters still to be pruned get fewer, or lose a dummy. */
  ghost predicate Fewer(cache: seq<int>, g: Forest, f: Forest) {
    Dummies(cache, g) < Dummies(cache, f) || (Dummies(cache, g) == Dummies(cache, f) && Size(g) < Size(f))
  }

  lemma {:induction false} HeadFewer(cache: seq<int>, f: Forest, top: bool)
    ensures var h := HeadPruned(cache, f, top);
            && Ids(h) <= Ids(f)
            && (Distinct(f) ==> Distinct(h))
            && Dummies(cache, h) <= Dummies(cache, f)
            && (h.Cons? ==> Fewer(cache, h.rest, f))
    decreases f
  {
    if f.Cons? {
      var k' := Pruned(cache, f.kids, false);
      PrunedIds(cache, f.kids, false);
      PrunedInside(cache, f.kids);
      AllMessagesIds(cache, k');
      if !IsMessage(cache, f.id) {
        if k'.Nil? {
          HeadFewer(cache, f.rest, top);
        } else if !top || k'.rest.Nil? {
          AppendFacts(k', f.rest);
          AppendMessages(cache, k', f.rest);
          AppendMessages(cache, k'.rest, f.rest);
        }
      }
    }
  }

  // ----- the link surgery -----

  /** Every dummy of f carries its real mother; messages may carry a stale one. */
  ghost predicate DummyParents(cache: seq<int>, parent: seq<int>, mother: int, f: Forest)
    decreases f
  {
    match f
    case Nil => true
    case Cons(id, k, r) =>
      && (!IsMessage(cache, id) ==> 0 <= id < |parent| && parent[id] == mother)
      && DummyParents(cache, parent, id, k)
      && DummyParents(cache, parent, mother, r)
  }

  lemma {:induction false} DummyParentsFrame(cache: seq<int>, parent: seq<int>, parent': seq<int>, mother: int,
                                             f: Forest)
    requires DummyParents(cache, parent, mother, f) && Same(parent, parent', Ids(f))
    ensures DummyParents(cache, parent', mother, f)
    decreases f
  {
    if f.Cons? {
      DummyParentsFrame(cache, parent, parent', f.id, f.kids);
      DummyParentsFrame(cache, parent, parent', mother, f.rest);
    }
  }

  lemma DummyParentsOfMessages(cache: seq<int>, parent: seq<int>, mother: int, f: Forest)
    requires AllMessages(cache, f)
    ensures DummyParents(cache, parent, mother, f)
    decreases f
  {
  }

  lemma DummyParentsAppend(cache: seq<int>, parent: seq<int>, mother: int, f: Forest, g: Forest)
    ensures DummyParents(cache, parent, mother, Append(f, g))
            <==> DummyParents(cache, parent, mother, f) && DummyParents(cache, parent, mother, g)
    decreases f
  {
  }

  /** The list once its first position is settled and the younger sisters are pruned. */
  ghost function Finished(cache: seq<int>, h: Forest, top: bool): Forest {
    if h.Nil? then Nil else Cons(h.id, h.kids, Pruned(cache, h.rest, top))
  }

  /** One more sister settled: done grows by cur's head, cur becomes the head-pruned rest. */
  lemma Advance(cache: seq<int>, done: Forest, cur: Forest, top: bool)
    requires cur.Cons? && Distinct(Append(done, cur))
    ensures var before, next := Append(done, Cons(cur.id, cur.kids, Nil)), HeadPruned(cache, cur.rest, top);
            && Append(before, cur.rest) == Append(done, cur)
            && before.Cons? && Last(before) == cur.id && cur.id in Ids(before)
            && Distinct(before) && Ids(before) !! Ids(cur.rest)
            && Append(before, Finished(cache, next, top)) == Append(done, Finished(cache, cur, top))
            && Distinct(Append(before, next)) && Ids(Append(before, next)) <= Ids(Append(done, cur))
  {
    var one := Cons(cur.id, cur.kids, Nil);
    var next := HeadPruned(cache, cur.rest, top);
    AppendAssoc(done, one, cur.rest);
    AppendAssoc(done, one, Finished(cache, next, top));
    LastAppend(done, one);
    AppendFacts(done, one);
    AppendFacts(done, cur);
    HeadThenRest(cache, cur.rest, top);
    HeadFewer(cache, cur.rest, top);
    AppendFacts(Append(done, one), next);
  }

  /** mail_thread_prune_dummy: prune a whole sister list (the code only ever calls it on an eldest
      sister, so there is no elder one to relink). */
  method PruneDummy(t: ContainerTable, msg: int, ghost f: Forest, ghost mother: int) returns (ret: int)
    requires t.Sized() && Distinct(f) && Chain(t.child, t.sibling, msg, f)
    requires mother !in Ids(f)
    requires mother == NIL || 0 <= mother < |t.cache|
    requires DummyParents(t.cache, t.parent, mother, f)
    modifies t
    ensures t.Sized() && t.cache == old(t.cache)
    ensures Chain(t.child, t.sibling, ret, Pruned(t.cache, f, mother == NIL))
    ensures Except(old(t.child), t.child, Ids(f) + {mother})
    ensures Except(old(t.sibling), t.sibling, Ids(f))
    ensures Except(old(t.parent), t.parent, Ids(f))
    decreases Dummies(t.cache, f), Size(f), 3
  {
    hide DummyParents, HeadPruned, Distinct;
    ghost var top := mother == NIL;
    if msg == NIL {
      return NIL;
    }
    ChainInRange(t.child, t.sibling, msg, f);
    ret := PruneDummyWork(t, msg, NIL, f, mother);
    ghost var done, cur := Nil, HeadPruned(t.cache, f, top);
    HeadThenRest(t.cache, f, top);
    HeadFewer(t.cache, f, top);
    var ane := ret;
    while ane != NIL && t.sibling[ane] != NIL
      invariant t.Sized() && t.cache == old(t.cache)
      invariant Chain(t.child, t.sibling, ret, Append(done, cur)) && Chain(t.child, t.sibling, ane, cur)
      invariant Pruned(t.cache, f, top) == Append(done, Finished(t.cache, cur, top))
      invariant Distinct(Append(done, cur)) && Ids(Append(done, cur)) <= Ids(f)
      invariant cur.Cons? ==> Fewer(t.cache, cur.rest, f) && DummyParents(t.cache, t.parent, mother, cur.rest)
      invariant Except(old(t.child), t.child, Ids(f) + {mother})
      invariant Except(old(t.sibling), t.sibling, Ids(f))
      invariant Except(old(t.parent), t.parent, Ids(f))
      decreases if cur.Cons? then 1 else 0,
                if cur.Cons? then Dummies(t.cache, cur.rest) else 0,
                if cur.Cons? then Size(cur.rest) else 0
    {
      Advance(t.cache, done, cur, top);
      AppendFacts(done, cur);
      done, cur, ane := PruneSister(t, ret, ane, done, cur, f, mother);
    }
  }

  /** One round of the loop in mail_thread_prune_dummy. */
  method PruneSister(t: ContainerTable, ghost ret: int, ane: int, ghost done: Forest, ghost cur: Forest,
                     ghost f: Forest, ghost mother: int)
    returns (ghost done': Forest, ghost cur': Forest, ane': int)
    requires t.Sized() && cur.Cons? && Distinct(Append(done, cur)) && Ids(Append(done, cur)) <= Ids(f)
    requires 0 <= ane < |t.sibling| && t.sibling[ane] != NIL
    requires Chain(t.child, t.sibling, ret, Append(done, cur)) && Chain(t.child, t.sibling, ane, cur)
    requires mother !in Ids(f)
    requires mother == NIL || 0 <= mother < |t.cache|
    requires Fewer(t.cache, cur.rest, f) && DummyParents(t.cache, t.parent, mother, cur.rest)
    modifies t
    ensures t.Sized() && t.cache == old(t.cache)
    ensures done' == Append(done, Cons(cur.id, cur.kids, Nil)) && cur' == HeadPruned(t.cache, cur.rest, mother == NIL)
    ensures Chain(t.child, t.sibling, ret, Append(done', cur')) && Chain(t.child, t.sibling, ane', cur')
    ensures cur'.Cons? ==> Fewer(t.cache, cur'.rest, cur.rest) && DummyParents(t.cache, t.parent, mother, cur'.rest)
    ensures Except(old(t.child), t.child, Ids(cur.rest) + {mother})
    ensures Except(old(t.sibling), t.sibling, Ids(cur.rest) + {ane})
    ensures Except(old(t.parent), t.parent, Ids(cur.rest))
    decreases Dummies(t.cache, f), Size(f), 2
  {
    ghost var top := mother == NIL;
    Advance(t.cache, done, cur, top);
    HeadFewer(t.cache, cur.rest, top);
    AppendFacts(done, cur);
    done' := Append(done, Cons(cur.id, cur.kids, Nil));
    cur' := HeadPruned(t.cache, cur.rest, top);
    ane' := PruneDummyWork(t, t.sibling[ane], ane, cur.rest, mother);
    AppendFacts(done', cur.rest);
    ChainRetail(old(t.child), old(t.sibling), t.child, t.sibling, ret, done', cur.rest, cur');
  }

  /** Put the pruned children k of the dummy msg in its place among its sisters. Only the eldest
      promoted child gets its new mother recorded. */
  method Promote(t: ContainerTable, msg: int, ane: int, nxt: int, ghost k: Forest, ghost r: Forest, ghost mother: int)
    requires t.Sized() && 0 <= msg < |t.cache|
    requires k.Cons? && Distinct(k) && Ids(k) !! Ids(r) && AllMessages(t.cache, k)
    requires Chain(t.child, t.sibling, nxt, k) && Chain(t.child, t.sibling, t.sibling[msg], r)
    requires t.parent[msg] == mother && DummyParents(t.cache, t.parent, mother, r)
    requires {mother, ane, msg} !! Ids(k) + Ids(r) && msg != ane
    requires mother == NIL || 0 <= mother < |t.cache|
    requires ane == NIL || 0 <= ane < |t.cache|
    modifies t
    ensures t.Sized() && t.cache == old(t.cache)
    ensures Chain(t.child, t.sibling, nxt, Append(k, r))
    ensures DummyParents(t.cache, t.parent, mother, Append(k, r))
    ensures ane != NIL ==> t.sibling[ane] == nxt
    ensures Except(old(t.child), t.child, {mother})
    ensures Except(old(t.sibling), t.sibling, Ids(k) + {ane})
    ensures Except(old(t.parent), t.parent, Ids(k))
  {
    hide DummyParents, Chain, Distinct, AllMessages, Ids;
    ChainHead(t.child, t.sibling, nxt, k);
    var cur := t.parent[msg];
    if ane != NIL {
      t.sibling := t.sibling[ane := nxt];
    } else if cur != NIL {
      t.child := t.child[cur := nxt];
    }
    t.parent := t.parent[nxt := cur];
    ghost var c2, s2 := t.child, t.sibling;
    ChainFrame(old(t.child), old(t.sibling), c2, s2, nxt, k);
    ChainFrame(old(t.child), old(t.sibling), c2, s2, s2[msg], r);
    var last := Youngest(t.child, t.sibling, nxt, k);
    LastInIds(k);
    ChainInRange(t.child, t.sibling, nxt, k);
    t.sibling := t.sibling[last := t.sibling[msg]];
    ChainFrame(c2, s2, c2, t.sibling, t.sibling[last], r);
    AppendNil(k);
    ChainRetail(c2, s2, c2, t.sibling, nxt, k, Nil, r);
    DummyParentsOfMessages(t.cache, t.parent, mother, k);
    DummyParentsFrame(t.cache, old(t.parent), t.parent, mother, r);
    DummyParentsAppend(t.cache, t.parent, mother, k, r);
  }

  /** mail_thread_prune_dummy_work: settle the position of msg, whose elder sister is ane. */
  method PruneDummyWork(t: ContainerTable, msg: int, ane: int, ghost f: Forest, ghost mother: int) returns (ret: int)
    requires t.Sized() && f.Cons? && Distinct(f) && Chain(t.child, t.sibling, msg, f)
    requires mother !in Ids(f) && ane !in Ids(f)
    requires mother == NIL || 0 <= mother < |t.cache|
    requires ane == NIL || (0 <= ane < |t.cache| && t.sibling[ane] == msg)
    requires DummyParents(t.cache, t.parent, mother, f)
    modifies t
    ensures t.Sized() && t.cache == old(t.cache)
    ensures Chain(t.child, t.sibling, ret, HeadPruned(t.cache, f, mother == NIL))
    ensures ane != NIL ==> t.sibling[ane] == ret
    ensures DummyParents(t.cache, t.parent, mother, HeadPruned(t.cache, f, mother == NIL))
    ensures Except(old(t.child), t.child, Ids(f) + {mother})
    ensures Except(old(t.sibling), t.sibling, Ids(f) + {ane})
    ensures Except(old(t.parent), t.parent, Ids(f))
    decreases Dummies(t.cache, f), Size(f), 2
  {
    ghost var k, r := f.kids, f.rest;
    ghost var k' := Pruned(t.cache, k, false);
    PrunedInside(t.cache, k);
    PrunedIds(t.cache, k, false);
    AllMessagesIds(t.cache, k');
    var nxt := PruneDummy(t, t.child[msg], k, msg);
    ChainFrame(old(t.child), old(t.sibling), t.child, t.sibling, t.sibling[msg], r);
    DummyParentsFrame(t.cache, old(t.parent), t.parent, mother, r);
    ret := Settle(t, msg, ane, nxt, k', f, mother);
  }

  /** The rest of mail_thread_prune_dummy_work, its children pruned to k and linked at nxt. */
  method Settle(t: ContainerTable, msg: int, ane: int, nxt: int, ghost k: Forest, ghost f: Forest, ghost mother: int)
    returns (ret: int)
    requires t.Sized() && 0 <= msg < |t.cache|
    requires f.Cons? && Distinct(f) && f.id == msg && k == Pruned(t.cache, f.kids, false)
    requires Distinct(k) && Ids(k) <= Ids(f.kids) && AllMessages(t.cache, k) && Dummies(t.cache, k) == 0
    requires Chain(t.child, t.sibling, nxt, k) && Chain(t.child, t.sibling, t.sibling[msg], f.rest)
    requires mother !in Ids(f) && ane !in Ids(f)
    requires mother == NIL || 0 <= mother < |t.cache|
    requires ane == NIL || (0 <= ane < |t.cache| && t.sibling[ane] == msg)
    requires !IsMessage(t.cache, msg) ==> t.parent[msg] == mother
    requires DummyParents(t.cache, t.parent, mother, f.rest)
    modifies t
    ensures t.Sized() && t.cache == old(t.cache)
    ensures Chain(t.child, t.sibling, ret, HeadPruned(t.cache, f, mother == NIL))
    ensures ane != NIL ==> t.sibling[ane] == ret
    ensures DummyParents(t.cache, t.parent, mother, HeadPruned(t.cache, f, mother == NIL))
    ensures Except(old(t.child), t.child, Ids(f) + {mother})
    ensures Except(old(t.sibling), t.sibling, Ids(f) + {ane})
    ensures Except(old(t.parent), t.parent, Ids(f))
    decreases Dummies(t.cache, f), Size(f), 1
  {
    ghost var r := f.rest;
    DummyParentsOfMessages(t.cache, t.parent, msg, k);
    if t.cache[msg] != NIL {
      SetChildren(t, msg, nxt, k, r);
      ret := msg;
    } else if nxt == NIL {
      ret := DropDummy(t, msg, ane, f, mother);
    } else if t.parent[msg] != NIL || t.sibling[nxt] == NIL {
      ret := ReplaceDummy(t, msg, ane, nxt, k, f, mother);
    } else {
      SetChildren(t, msg, nxt, k, r);
      ret := msg;
    }
  }

  /** A childless dummy disappears and its younger sister takes the position. */
  method DropDummy(t: ContainerTable, msg: int, ane: int, ghost f: Forest, ghost mother: int) returns (ret: int)
    requires t.Sized() && 0 <= msg < |t.cache|
    requires f.Cons? && Distinct(f) && f.id == msg && !IsMessage(t.cache, msg)
    requires Chain(t.child, t.sibling, t.sibling[msg], f.rest)
    requires mother !in Ids(f) && ane !in Ids(f)
    requires mother == NIL || 0 <= mother < |t.cache|
    requires ane == NIL || (0 <= ane < |t.cache| && t.sibling[ane] == msg)
    requires DummyParents(t.cache, t.parent, mother, f.rest)
    modifies t
    ensures t.Sized() && t.cache == old(t.cache)
    ensures Chain(t.child, t.sibling, ret, HeadPruned(t.cache, f.rest, mother == NIL))
    ensures ane != NIL ==> t.sibling[ane] == ret
    ensures DummyParents(t.cache, t.parent, mother, HeadPruned(t.cache, f.rest, mother == NIL))
    ensures Except(old(t.child), t.child, Ids(f.rest) + {mother})
    ensures Except(old(t.sibling), t.sibling, Ids(f.rest) + {ane})
    ensures Except(old(t.parent), t.parent, Ids(f.rest))
    decreases Dummies(t.cache, f), Size(f), 0
  {
    ret := t.sibling[msg];
    if ane != NIL {
      t.sibling := t.sibling[ane := ret];
      ChainFrame(t.child, old(t.sibling), t.child, t.sibling, ret, f.rest);
    }
    if ret != NIL {
      ret := PruneDummyWork(t, ret, ane, f.rest, mother);
    }
  }

  /** A dummy gives way to its pruned children k, which are pruned once more where they land. */
  method ReplaceDummy(t: ContainerTable, msg: int, ane: int, nxt: int, ghost k: Forest, ghost f: Forest,
                      ghost mother: int)
    returns (ret: int)
    requires t.Sized() && 0 <= msg < |t.cache|
    requires f.Cons? && Distinct(f) && f.id == msg && !IsMessage(t.cache, msg)
    requires k.Cons? && Distinct(k) && Ids(k) <= Ids(f.kids) && AllMessages(t.cache, k) && Dummies(t.cache, k) == 0
    requires Chain(t.child, t.sibling, nxt, k) && Chain(t.child, t.sibling, t.sibling[msg], f.rest)
    requires mother !in Ids(f) && ane !in Ids(f)
    requires mother == NIL || 0 <= mother < |t.cache|
    requires ane == NIL || 0 <= ane < |t.cache|
    requires t.parent[msg] == mother && DummyParents(t.cache, t.parent, mother, f.rest)
    modifies t
    ensures t.Sized() && t.cache == old(t.cache)
    ensures Chain(t.child, t.sibling, ret, Append(k, f.rest))
    ensures ane != NIL ==> t.sibling[ane] == ret
    ensures DummyParents(t.cache, t.parent, mother, Append(k, f.rest))
    ensures Except(old(t.child), t.child, Ids(f) + {mother})
    ensures Except(old(t.sibling), t.sibling, Ids(f) + {ane})
    ensures Except(old(t.parent), t.parent, Ids(f))
    decreases Dummies(t.cache, f), Size(f), 0
  {
    ghost var g := Append(k, f.rest);
    AppendFacts(k, f.rest);
    AppendMessages(t.cache, k, f.rest);
    PromotedIsSettled(t.cache, k, f.rest, mother == NIL);
    Promote(t, msg, ane, nxt, k, f.rest, mother);
    assert Ids(g) <= Ids(f);
    ret := PruneDummyWork(t, nxt, ane, g, mother);
  }

  method SetChildren(t: ContainerTable, msg: int, nxt: int, ghost k: Forest, ghost r: Forest)
    requires t.Sized() && 0 <= msg < |t.cache| && msg !in Ids(k) && msg !in Ids(r)
    requires Chain(t.child, t.sibling, nxt, k) && Chain(t.child, t.sibling, t.sibling[msg], r)
    modifies t`child
    ensures t.Sized() && Chain(t.child, t.sibling, msg, Cons(msg, k, r))
    ensures Except(old(t.child), t.child, {msg})
  {
    t.child := t.child[msg := nxt];
    ChainFrame(old(t.child), t.sibling, t.child, t.sibling, nxt, k);
    ChainFrame(old(t.child), t.sibling, t.child, t.sibling, t.sibling[msg], r);
  }
}
