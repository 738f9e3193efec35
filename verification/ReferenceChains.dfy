/** Step 1 of REFERENCES threading told by the recorded mothers alone: which container gets which mother. No child or
    sister link occurs here; the link surgery of module ReferenceLinks is proved to do this to the parent vector. */
module ReferenceChains {
  import opened Forests
  import opened Linking

  /** The vector with more containers, which have no mothers. */
  ghost function Grown(parent: seq<int>, n: nat): (p: seq<int>)
    ensures |p| == if |parent| <= n then n else |parent|
    ensures parent <= p
  {
    if |parent| <= n then parent + seq(n - |parent|, _ => NIL) else parent
  }

  /** A reference to container older followed by one to newer: newer gets older for its mother, unless it has one
      already or would become its own ancestor. */
  ghost function PairLinked(parent: seq<int>, older: int, newer: int): (p: seq<int>)
    ensures |p| == |parent|
  {
    if 0 <= newer < |parent| && parent[newer] == NIL && !Climbs(parent, older, newer) then parent[newer := older]
    else parent
  }

  /** The pairs of a reference list, from the oldest on. */
  ghost function PairsLinked(parent: seq<int>, cs: seq<int>): (p: seq<int>)
    ensures |p| == |parent|
  {
    if |cs| < 2 then parent
    else PairLinked(PairsLinked(parent, cs[..|cs| - 1]), cs[|cs| - 2], cs[|cs| - 1])
  }

  /** The container own gets its last reference con for its mother, and no other one. */
  ghost function OwnLinked(parent: seq<int>, con: int, own: int): (p: seq<int>)
    requires 0 <= own < |parent|
    ensures |p| == |parent|
  {
    parent[own := if con == NIL || Climbs(parent, con, own) then NIL else con]
  }

  // ----- growing -----

  lemma GrownTwice(parent: seq<int>, n: nat, n': nat)
    requires |parent| <= n <= n'
    ensures Grown(Grown(parent, n), n') == Grown(parent, n')
  {
  }

  lemma {:induction false} UpNil(parent: seq<int>, n: nat)
    ensures Up(parent, NIL, n) == NIL
  {
  }

  lemma {:induction false} UpGrown(parent: seq<int>, size: nat, x: int, n: nat)
    ensures Up(Grown(parent, size), x, n) == Up(parent, x, n)
    decreases n
  {
    if n > 0 {
      if 0 <= x < |parent| {
        UpGrown(parent, size, parent[x], n - 1);
      } else if 0 <= x < |Grown(parent, size)| {
        UpNil(Grown(parent, size), n - 1);
      }
    }
  }

  lemma ClimbsGrown(parent: seq<int>, size: nat, c: int, x: int)
    ensures Climbs(Grown(parent, size), c, x) <==> Climbs(parent, c, x)
  {
    forall n: nat
      ensures Up(Grown(parent, size), c, n) == Up(parent, c, n)
    {
      UpGrown(parent, size, c, n);
    }
  }

  /** Links do not depend on how many containers there are. */
  lemma {:induction false} PairGrown(parent: seq<int>, size: nat, older: int, newer: int)
    requires newer < |parent|
    ensures PairLinked(Grown(parent, size), older, newer) == Grown(PairLinked(parent, older, newer), size)
  {
    ClimbsGrown(parent, size, older, newer);
  }

  lemma {:induction false} PairsGrown(parent: seq<int>, size: nat, cs: seq<int>)
    requires forall k :: 0 <= k < |cs| ==> 0 <= cs[k] < |parent|
    ensures PairsLinked(Grown(parent, size), cs) == Grown(PairsLinked(parent, cs), size)
    decreases |cs|
  {
    if |cs| >= 2 {
      PairsGrown(parent, size, cs[..|cs| - 1]);
      PairGrown(PairsLinked(parent, cs[..|cs| - 1]), size, cs[|cs| - 2], cs[|cs| - 1]);
    }
  }

  // ----- what a reference list does -----

  /** Mothers once recorded are kept. */
  ghost predicate KeepsMothers(was: seq<int>, now: seq<int>) {
    |was| == |now| && forall x :: 0 <= x < |was| && was[x] != NIL ==> now[x] == was[x]
  }

  lemma {:induction false} ClimbKept(was: seq<int>, now: seq<int>, c: int, x: int, n: nat)
    requires KeepsMothers(was, now) && x != NIL && Up(was, c, n) == x
    ensures Up(now, c, n) == x
    decreases n
  {
    if n > 0 {
      UpNil(was, n - 1);
      ClimbKept(was, now, was[c], x, n - 1);
    }
  }

  lemma {:induction false} PairsKeep(parent: seq<int>, cs: seq<int>)
    ensures KeepsMothers(parent, PairsLinked(parent, cs))
    decreases |cs|
  {
    if |cs| >= 2 {
      PairsKeep(parent, cs[..|cs| - 1]);
    }
  }

  /** A container that a reference list gives a mother is named in it right after her. */
  lemma {:induction false} OnlyPairsLink(parent: seq<int>, cs: seq<int>, x: int) returns (k: nat)
    requires 0 <= x < |parent| && PairsLinked(parent, cs)[x] != parent[x]
    ensures k + 1 < |cs| && cs[k + 1] == x && cs[k] == PairsLinked(parent, cs)[x]
    decreases |cs|
  {
    var rest := cs[..|cs| - 1];
    if PairsLinked(parent, rest)[x] != parent[x] {
      PairsKeep(parent, rest);
      k := OnlyPairsLink(parent, rest, x);
    } else {
      k := |cs| - 2;
    }
  }

  /** Of every pair the newer one has a mother in the end, or the older one is it or below it. */
  lemma {:induction false} AllPairsLink(parent: seq<int>, cs: seq<int>, k: nat)
    requires k + 1 < |cs| && forall j :: 0 <= j < |cs| ==> 0 <= cs[j] < |parent|
    ensures var now := PairsLinked(parent, cs); now[cs[k + 1]] != NIL || Climbs(now, cs[k], cs[k + 1])
    decreases |cs|
  {
    var (rest, now) := (cs[..|cs| - 1], PairsLinked(parent, cs));
    var before := PairsLinked(parent, rest);
    var (m, x) := (cs[k], cs[k + 1]);
    if k + 2 < |cs| {
      AllPairsLink(parent, rest, k);
    }
    if Climbs(before, m, x) {
      var n: nat :| Up(before, m, n) == x;
      ClimbKept(before, now, m, x, n);
    }
  }

  /** A pair that is free when its turn comes is linked, the newer one under the older. */
  lemma {:induction false} FreePairLinks(parent: seq<int>, cs: seq<int>, k: nat)
    requires k + 1 < |cs| && 0 <= cs[k] && 0 <= cs[k + 1] < |parent|
    requires var before := PairsLinked(parent, cs[..k + 1]);
             before[cs[k + 1]] == NIL && !Climbs(before, cs[k], cs[k + 1])
    ensures PairsLinked(parent, cs)[cs[k + 1]] == cs[k]
    decreases |cs|
  {
    if k + 2 < |cs| {
      assert cs[..|cs| - 1][..k + 1] == cs[..k + 1];
      FreePairLinks(parent, cs[..|cs| - 1], k);
    } else {
      assert cs[..|cs| - 1] == cs[..k + 1];
    }
  }

  /** A container that is nobody's mother and not in the list is nobody's mother afterwards. */
  lemma {:induction false} StaysChildless(parent: seq<int>, cs: seq<int>, x: int)
    requires x !in cs && x !in parent
    ensures x !in PairsLinked(parent, cs)
    decreases |cs|
  {
    if |cs| >= 2 {
      var rest := cs[..|cs| - 1];
      StaysChildless(parent, rest, x);
      assert cs[|cs| - 2] in cs;
    }
  }

  lemma {:induction false} NobodyClimbs(parent: seq<int>, c: int, x: int)
    requires c != x && x !in parent && x != NIL
    ensures !Climbs(parent, c, x)
  {
    forall n: nat
      ensures Up(parent, c, n) != x
    {
      NobodyReaches(parent, c, x, n);
    }
  }

  lemma {:induction false} NobodyReaches(parent: seq<int>, c: int, x: int, n: nat)
    requires c != x && x !in parent && x != NIL
    ensures Up(parent, c, n) != x
    decreases n
  {
    if n > 0 && 0 <= c < |parent| {
      assert parent[c] in parent;
      NobodyReaches(parent, parent[c], x, n - 1);
    }
  }
}
