/** The IMAP client's message cache as a protocol: what each untagged response does to the cache, and
    that a cache kept this way never disagrees with the server it listens to. */
module CacheModel {

  const CACHEINCREMENT: nat := 250
  const MAXMESSAGES: nat := 100000000

  datatype Response =
    | Exists(n: nat)
    | Expunge(msgno: nat)
    | FetchUid(msgno: nat, uid: nat)
    | UidValidity(validity: nat)

  /** One cache slot: the UID recorded (0 when none is) and the sort cache entry (0 when none is). */
  datatype Slot = Slot(uid: nat, sort: int)

  const EMPTY := Slot(0, 0)

  /** What the client holds: the whole cache, of which the first nmsgs slots are in use. */
  datatype View = View(nmsgs: nat, slots: seq<Slot>, validity: nat)

  ghost predicate ValidView(v: View) {
    v.nmsgs <= |v.slots|
  }

  ghost function Empties(n: nat): seq<Slot> {
    seq(n, _ => EMPTY)
  }

  /** The cache made large enough for n messages; the first one is allocated whatever n is. */
  ghost function Sized(slots: seq<Slot>, n: nat): (r: seq<Slot>)
    ensures n <= |r| && slots <= r && forall i :: |slots| <= i < |r| ==> r[i] == EMPTY
  {
    if slots == [] || n > |slots| then slots + Empties(n + CACHEINCREMENT - |slots|) else slots
  }

  /** Slot k is gone, the used slots above it move down and the last of them is left empty. */
  ghost function Removed(slots: seq<Slot>, nmsgs: nat, k: nat): (r: seq<Slot>)
    requires 1 <= k <= nmsgs <= |slots|
    ensures |r| == |slots|
    ensures forall i :: 0 <= i < |slots| ==>
      r[i] == if i < k - 1 then slots[i] else if i < nmsgs - 1 then slots[i + 1]
              else if i == nmsgs - 1 then EMPTY else slots[i]
  {
    slots[..k - 1] + slots[k..nmsgs] + [EMPTY] + slots[nmsgs..]
  }

  /** The client's reaction to one response. */
  ghost function Heard(v: View, r: Response): (v': View)
    requires ValidView(v)
    ensures ValidView(v')
  {
    match r
    case Exists(n) => if n > MAXMESSAGES then v else v.(nmsgs := n, slots := Sized(v.slots, n))
    case Expunge(k) =>
      if 1 <= k <= v.nmsgs then v.(nmsgs := v.nmsgs - 1, slots := Removed(v.slots, v.nmsgs, k)) else v
    case FetchUid(k, uid) =>
      if 1 <= k <= v.nmsgs then v.(slots := v.slots[k - 1 := v.slots[k - 1].(uid := uid)]) else v
    case UidValidity(validity) =>
      if validity == v.validity then v
      else v.(validity := validity,
              slots := seq(|v.slots|,
                           i requires 0 <= i < |v.slots| => if i < v.nmsgs then v.slots[i].(uid := 0) else v.slots[i]))
  }

  // ----- the server -----

  /** What the server has told its client so far: the UIDs of the mailbox in order. */
  datatype Server = Server(mailbox: seq<nat>, validity: nat)

  ghost predicate ValidServer(s: Server) {
    && s.validity != 0
    && (forall i :: 0 <= i < |s.mailbox| ==> s.mailbox[i] != 0)
    && (forall i, j :: 0 <= i < j < |s.mailbox| ==> s.mailbox[i] != s.mailbox[j])
  }

  /** A consistent server passes from s to t by sending r. */
  ghost predicate Sends(s: Server, r: Response, t: Server) {
    && ValidServer(t)
    && match r
       case Exists(n) => s.mailbox <= t.mailbox && |t.mailbox| == n && t.validity == s.validity
       case Expunge(k) =>
         1 <= k <= |s.mailbox| && t == s.(mailbox := s.mailbox[..k - 1] + s.mailbox[k..])
       case FetchUid(k, uid) => 1 <= k <= |s.mailbox| && uid == s.mailbox[k - 1] && t == s
       case UidValidity(v) =>
         t.validity == v && |t.mailbox| == |s.mailbox| && (v == s.validity ==> t.mailbox == s.mailbox)
  }

  /** The client knows no more messages than there are, every UID it has recorded is that of the
      server's message at the same position, and nothing is left over beyond its last message. */
  ghost predicate Agrees(v: View, s: Server) {
    && ValidView(v) && v.nmsgs <= |s.mailbox|
    && (v.validity == 0 || v.validity == s.validity)
    && (forall i :: 0 <= i < v.nmsgs ==> v.slots[i].uid == 0 || v.slots[i].uid == s.mailbox[i])
    && (forall i :: v.nmsgs <= i < |v.slots| ==> v.slots[i].uid == 0)
  }

  lemma ExpungeAgrees(v: View, s: Server, k: nat, t: Server)
    requires Agrees(v, s) && Sends(s, Expunge(k), t) && 1 <= k <= v.nmsgs
    ensures Agrees(Heard(v, Expunge(k)), t)
  {
  }

  /** One response keeps the agreement. */
  lemma {:induction false} HeardAgrees(v: View, s: Server, r: Response, t: Server)
    requires Agrees(v, s) && ValidServer(s) && Sends(s, r, t)
    ensures Agrees(Heard(v, r), t)
  {
    hide Removed;
    if r.Expunge? && 1 <= r.msgno <= v.nmsgs {
      ExpungeAgrees(v, s, r.msgno, t);
    }
  }

  ghost function HeardAll(v: View, rs: seq<Response>): (v': View)
    requires ValidView(v)
    ensures ValidView(v')
    decreases |rs|
  {
    if rs == [] then v else HeardAll(Heard(v, rs[0]), rs[1..])
  }

  lemma {:induction false} HeardOneMore(v: View, rs: seq<Response>, i: nat)
    requires ValidView(v) && i < |rs|
    ensures HeardAll(v, rs[..i + 1]) == Heard(HeardAll(v, rs[..i]), rs[i])
    ensures rs[..i + 1][..i] == rs[..i]
    decreases i
  {
    if i > 0 {
      HeardOneMore(Heard(v, rs[0]), rs[1..], i - 1);
      assert rs[..i + 1][1..] == rs[1..][..i];
      assert rs[..i][1..] == rs[1..][..i - 1];
    } else {
      assert rs[..1][1..] == [];
    }
  }

  /** A run of a consistent server: states[i] passes to states[i + 1] by sending rs[i]. */
  ghost predicate IsRun(states: seq<Server>, rs: seq<Response>) {
    && |states| == |rs| + 1 && ValidServer(states[0])
    && forall i :: 0 <= i < |rs| ==> Sends(states[i], rs[i], states[i + 1])
  }

  /** Over every run the client agrees with the server in the end. */
  lemma {:induction false} RunAgrees(v: View, states: seq<Server>, rs: seq<Response>)
    requires IsRun(states, rs) && Agrees(v, states[0])
    ensures Agrees(HeardAll(v, rs), states[|rs|])
    decreases |rs|
  {
    if rs != [] {
      HeardAgrees(v, states[0], rs[0], states[1]);
      RunAgrees(Heard(v, rs[0]), states[1..], rs[1..]);
    }
  }

  // ----- looking up a UID -----

  /** The first message recorded with this UID, 0 if there is none. */
  ghost function FirstWith(v: View, uid: nat, from: nat): (r: nat)
    requires ValidView(v) && from <= v.nmsgs
    ensures r != 0 ==> from < r <= v.nmsgs && v.slots[r - 1].uid == uid
    ensures forall i :: from <= i < v.nmsgs && (r != 0 ==> i < r - 1) ==> v.slots[i].uid != uid
    decreases v.nmsgs - from
  {
    if from == v.nmsgs then 0 else if v.slots[from].uid == uid then from + 1 else FirstWith(v, uid, from + 1)
  }

  /** The last UID fetched while the responses rs were heard, and the message number it came with. */
  ghost function LastUid(v: View, rs: seq<Response>): (r: (nat, nat))
    requires ValidView(v)
    ensures r.0 != 0 ==> r.1 >= 1
  {
    if rs == [] then (0, 0)
    else
      var n := |rs| - 1;
      var before := HeardAll(v, rs[..n]);
      match rs[n]
      case FetchUid(k, uid) => if 1 <= k <= before.nmsgs then (uid, k) else LastUid(v, rs[..n])
      case _ => LastUid(v, rs[..n])
  }

  /** One of the first n messages has no UID recorded. */
  ghost predicate HoleBelow(v: View, n: nat)
    requires n <= |v.slots|
  {
    n > 0 && (v.slots[n - 1].uid == 0 || HoleBelow(v, n - 1))
  }

  lemma HoleMeans(v: View, n: nat)
    requires n <= |v.slots|
    ensures HoleBelow(v, n) <==> exists i :: 0 <= i < n && v.slots[i].uid == 0
  {
  }

  /** The cache has no answer and has holes, so the server is asked. */
  ghost predicate Asks(v: View, uid: nat)
    requires ValidView(v)
  {
    (uid == 0 || FirstWith(v, uid, 0) == 0) && HoleBelow(v, v.nmsgs)
  }

  /** imap_msgno: rs are the responses heard if the server has to be asked. */
  ghost function MsgnoOf(v: View, uid: nat, rs: seq<Response>): (r: nat)
    requires ValidView(v)
  {
    if !Asks(v, uid) then if uid == 0 then 0 else FirstWith(v, uid, 0)
    else Answer(HeardAll(v, rs), uid, LastUid(v, rs))
  }

  /** The answer once the server has been asked and last is the last UID it gave. */
  ghost function Answer(w: View, uid: nat, last: (nat, nat)): (r: nat)
    requires ValidView(w) && (last.0 != 0 ==> last.1 >= 1)
  {
    if last.0 == 0 then 0
    else if last.0 == uid && last.1 <= w.nmsgs && w.slots[last.1 - 1].uid == uid then last.1
    else FirstWith(w, uid, 0)
  }

  /** The server when imap_msgno answers. */
  ghost function Now(v: View, uid: nat, states: seq<Server>): Server
    requires ValidView(v) && states != []
  {
    if Asks(v, uid) then states[|states| - 1] else states[0]
  }

  /** The message named, if any, has the UID asked for, on the server and now. */
  ghost predicate RightAnswer(v: View, uid: nat, states: seq<Server>, rs: seq<Response>) {
    IsRun(states, rs) && Agrees(v, states[0]) ==>
      var r := MsgnoOf(v, uid, rs);
      var box := Now(v, uid, states).mailbox;
      r <= |box| && (r == 0 || box[r - 1] == uid)
  }

  lemma {:induction false} MsgnoIsRight(v: View, uid: nat, states: seq<Server>, rs: seq<Response>)
    requires IsRun(states, rs) && Agrees(v, states[0]) && uid != 0
    ensures RightAnswer(v, uid, states, rs)
  {
    RunAgrees(v, states, rs);
    ServersStayValid(states, rs);
  }

  /** imap_msgno is right in every state and over every run of the server exactly when it is asked for a
      UID that a message can have. */
  lemma {:induction false} MsgnoNeverWrong(uid: nat)
    ensures (forall v, states, rs :: RightAnswer(v, uid, states, rs)) <==> uid != 0
  {
    if uid != 0 {
      forall v: View, states: seq<Server>, rs: seq<Response>
        ensures RightAnswer(v, uid, states, rs)
      {
        if IsRun(states, rs) && Agrees(v, states[0]) {
          MsgnoIsRight(v, uid, states, rs);
        }
      }
    } else {
      ZeroUidNamesAMessage();
      var s := Server([5, 7], 1);
      assert !RightAnswer(View(2, [EMPTY, EMPTY], 0), 0, [s, s], [FetchUid(2, 7)]);
    }
  }

  lemma {:induction false} ServersStayValid(states: seq<Server>, rs: seq<Response>)
    requires IsRun(states, rs)
    ensures ValidServer(states[|rs|])
  {
    if rs != [] {
      assert Sends(states[|rs| - 1], rs[|rs| - 1], states[|rs|]);
    }
  }

  /** Asking for UID 0 can name a message: the first one whose UID is not known. */
  lemma ZeroUidNamesAMessage()
    ensures var v := View(2, [EMPTY, EMPTY], 0); var s := Server([5, 7], 1); var rs := [FetchUid(2, 7)];
            && IsRun([s, s], rs) && Agrees(v, s)
            && MsgnoOf(v, 0, rs) == 1 && s.mailbox[0] != 0
  {
    var v := View(2, [EMPTY, EMPTY], 0);
    var rs := [FetchUid(2, 7)];
    assert v.slots[0].uid == 0;
    assert Asks(v, 0);
    assert rs[..0] == [];
    assert HeardAll(v, rs) == Heard(v, rs[0]);
  }

  /** With no holes in the cache, every UID of a known message is found, at its place. */
  lemma {:induction false} MsgnoIsComplete(v: View, s: Server, i: nat)
    requires Agrees(v, s) && ValidServer(s) && i < v.nmsgs && forall j :: 0 <= j < v.nmsgs ==> v.slots[j].uid != 0
    ensures MsgnoOf(v, s.mailbox[i], []) == i + 1
  {
    HoleMeans(v, v.nmsgs);
  }

  // ----- what the server's answer makes known -----

  ghost predicate Knows(v: View, uid: nat) {
    ValidView(v) && exists i :: 0 <= i < v.nmsgs && v.slots[i].uid == uid
  }

  /** The response makes every recorded UID worthless. */
  ghost predicate Forgets(v: View, r: Response) {
    r.UidValidity? && r.validity != v.validity
  }

  lemma KnownAfterExpunge(v: View, uid: nat, s: Server, k: nat, t: Server, i: nat)
    requires Agrees(v, s) && ValidServer(s) && Sends(s, Expunge(k), t) && 1 <= k <= v.nmsgs
    requires i < v.nmsgs && v.slots[i].uid == uid != 0 && uid in t.mailbox
    ensures Knows(Heard(v, Expunge(k)), uid)
  {
    assert s.mailbox[i] == uid && i != k - 1;
    var slots := Removed(v.slots, v.nmsgs, k);
    assert slots[if i < k then i else i - 1].uid == uid;
  }

  /** A UID once recorded stays recorded while the message is there. */
  lemma {:induction false} KnownStays(v: View, uid: nat, s: Server, r: Response, t: Server)
    requires Agrees(v, s) && ValidServer(s) && Sends(s, r, t) && uid != 0
    requires Knows(v, uid) && !Forgets(v, r) && uid in t.mailbox
    ensures Knows(Heard(v, r), uid)
  {
    hide Removed;
    var i :| 0 <= i < v.nmsgs && v.slots[i].uid == uid;
    if r.Expunge? && 1 <= r.msgno <= v.nmsgs {
      KnownAfterExpunge(v, uid, s, r.msgno, t, i);
    } else {
      assert Heard(v, r).slots[i].uid == uid;
    }
  }

  lemma KnownOnceFetched(v: View, k: nat, uid: nat)
    requires ValidView(v) && 1 <= k <= v.nmsgs
    ensures Knows(Heard(v, FetchUid(k, uid)), uid)
  {
    assert Heard(v, FetchUid(k, uid)).slots[k - 1].uid == uid;
  }

  /** What the last response does to the last UID fetched. */
  lemma {:induction false} LastUidMore(v: View, rs: seq<Response>, n: nat, s: Server, t: Server)
    requires ValidView(v) && n < |rs| && Sends(s, rs[n], t) && ValidServer(s)
    requires LastUid(v, rs[..n]).0 != 0 || (rs[n].FetchUid? && rs[n].msgno <= HeardAll(v, rs[..n]).nmsgs)
    ensures LastUid(v, rs[..n + 1]).0 != 0
  {
    assert rs[..n + 1][..n] == rs[..n] && rs[..n + 1][n] == rs[n];
  }

  lemma {:induction false} PrefixRuns(states: seq<Server>, rs: seq<Response>, n: nat)
    requires IsRun(states, rs) && n <= |rs|
    ensures IsRun(states[..n + 1], rs[..n]) && ValidServer(states[n])
  {
    ServersStayValid(states[..n + 1], rs[..n]);
  }

  /** Response j was the UID of a message the client knew of, which stays in the mailbox. */
  ghost predicate Fetched(v: View, uid: nat, states: seq<Server>, rs: seq<Response>, j: nat)
    requires ValidView(v)
  {
    && IsRun(states, rs) && j < |rs|
    && rs[j].FetchUid? && rs[j].uid == uid && rs[j].msgno <= HeardAll(v, rs[..j]).nmsgs
    && (forall k :: j < k < |rs| ==> !Forgets(HeardAll(v, rs[..k]), rs[k]))
    && (forall k :: j < k <= |rs| ==> uid in states[k].mailbox)
  }

  lemma {:induction false} KnownFrom(v: View, uid: nat, states: seq<Server>, rs: seq<Response>, j: nat, n: nat)
    requires ValidView(v) && Fetched(v, uid, states, rs, j) && Agrees(v, states[0]) && j < n <= |rs|
    ensures uid != 0 && Knows(HeardAll(v, rs[..n]), uid) && LastUid(v, rs[..n]).0 != 0
    decreases n
  {
    hide Heard, HeardAll, Knows, LastUid;
    var (s, r, t) := (states[n - 1], rs[n - 1], states[n]);
    var w := HeardAll(v, rs[..n - 1]);
    PrefixRuns(states, rs, n - 1);
    RunAgrees(v, states[..n], rs[..n - 1]);
    HeardOneMore(v, rs, n - 1);
    assert Sends(s, r, t);
    if n == j + 1 {
      KnownOnceFetched(w, r.msgno, uid);
    } else {
      KnownFrom(v, uid, states, rs, j, n - 1);
      KnownStays(w, uid, s, r, t);
    }
    LastUidMore(v, rs, n - 1, s, t);
  }

  /** When the server is asked and answers with the UID of a message the client knows of, the message is found where it
      is in the end: later responses may move it, but not make it lost. */
  lemma {:induction false} MsgnoFindsFetched(v: View, uid: nat, states: seq<Server>, rs: seq<Response>, j: nat)
    requires ValidView(v) && Asks(v, uid) && Fetched(v, uid, states, rs, j) && Agrees(v, states[0])
    ensures var (p, box) := (MsgnoOf(v, uid, rs), states[|rs|].mailbox); 1 <= p <= |box| && box[p - 1] == uid
  {
    assert rs[..|rs|] == rs;
    KnownFrom(v, uid, states, rs, j, |rs|);
    MsgnoIsRight(v, uid, states, rs);
  }

  // ----- what the client knows of -----

  /** No mailbox of the run has more messages than the client takes. */
  ghost predicate AllFit(states: seq<Server>) {
    forall i :: 0 <= i < |states| ==> |states[i].mailbox| <= MAXMESSAGES
  }

  /** An EXISTS is taken at its word up to the maximum, whatever the client knew before, and ignored above it. */
  lemma ExistsIsTaken(v: View, s: Server, n: nat, t: Server)
    requires ValidView(v) && Sends(s, Exists(n), t)
    ensures |t.mailbox| <= MAXMESSAGES ==> Heard(v, Exists(n)).nmsgs == |t.mailbox|
    ensures |t.mailbox| > MAXMESSAGES ==> Heard(v, Exists(n)) == v
  {
  }

  /** Once it knows of every message the client goes on knowing of every message. */
  lemma {:induction false} HeardKnowsAll(v: View, s: Server, r: Response, t: Server)
    requires ValidView(v) && Sends(s, r, t) && v.nmsgs == |s.mailbox| && |t.mailbox| <= MAXMESSAGES
    ensures Heard(v, r).nmsgs == |t.mailbox|
  {
    if r.Exists? {
      ExistsIsTaken(v, s, r.n, t);
    }
  }

  /** Over every run of a consistent server. */
  lemma {:induction false} RunKnowsAll(v: View, states: seq<Server>, rs: seq<Response>)
    requires ValidView(v) && IsRun(states, rs) && AllFit(states) && v.nmsgs == |states[0].mailbox|
    ensures HeardAll(v, rs).nmsgs == |states[|rs|].mailbox|
    decreases |rs|
  {
    if rs != [] {
      HeardKnowsAll(v, states[0], rs[0], states[1]);
      RunKnowsAll(Heard(v, rs[0]), states[1..], rs[1..]);
    }
  }

  /** From the first EXISTS on, whatever the client knew before. */
  lemma {:induction false} KnowsAllFromExists(v: View, states: seq<Server>, rs: seq<Response>, j: nat)
    requires ValidView(v) && IsRun(states, rs) && AllFit(states) && j < |rs| && rs[j].Exists?
    ensures HeardAll(v, rs).nmsgs == |states[|rs|].mailbox|
    decreases |rs|
  {
    if j == 0 {
      ExistsIsTaken(v, states[0], rs[0].n, states[1]);
      RunKnowsAll(Heard(v, rs[0]), states[1..], rs[1..]);
    } else {
      KnowsAllFromExists(Heard(v, rs[0]), states[1..], rs[1..], j - 1);
    }
  }

  /** Response j was the UID of a message that stays in the mailbox. */
  ghost predicate Answered(v: View, uid: nat, states: seq<Server>, rs: seq<Response>, j: nat)
    requires ValidView(v)
  {
    && IsRun(states, rs) && j < |rs| && rs[j].FetchUid? && rs[j].uid == uid
    && (forall k :: j < k < |rs| ==> !Forgets(HeardAll(v, rs[..k]), rs[k]))
    && (forall k :: j < k <= |rs| ==> uid in states[k].mailbox)
  }

  /** So a client that knows of all messages finds every message whose UID the server gives when it is asked. */
  lemma {:induction false} MsgnoFindsAnswered(v: View, uid: nat, states: seq<Server>, rs: seq<Response>, j: nat)
    requires ValidView(v) && Asks(v, uid) && Answered(v, uid, states, rs, j) && Agrees(v, states[0])
    requires AllFit(states) && v.nmsgs == |states[0].mailbox|
    ensures var (p, box) := (MsgnoOf(v, uid, rs), states[|rs|].mailbox); 1 <= p <= |box| && box[p - 1] == uid
  {
    hide Asks, MsgnoOf, Agrees, HeardAll;
    PrefixRuns(states, rs, j);
    RunKnowsAll(v, states[..j + 1], rs[..j]);
    assert Sends(states[j], rs[j], states[j + 1]);
    MsgnoFindsFetched(v, uid, states, rs, j);
  }
}
