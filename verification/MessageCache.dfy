/** The message cache itself: mm_cache, mail_exists, mail_expunged and the IMAP response handlers,
    each proved to do what CacheModel says. */
module MessageCache {
  import opened CacheModel

  /** A cache element. */
  class Elt {
    var msgno: nat
    var uid: nat

    constructor (msgno: nat)
      ensures this.msgno == msgno && uid == 0
    {
      this.msgno := msgno;
      uid := 0;
    }
  }

  class Stream {
    var nmsgs: nat
    var cache: seq<Elt?>        // one element per message, null when there is none
    var sc: seq<int>            // sort cache entries, 0 when there is none
    var uidValidity: nat
    var lastUid: nat            // UID and message number of the last UID fetched
    var lastMsgno: nat
    ghost var view: View        // what all this amounts to

    ghost function Elts(): set<Elt>
      reads this
    {
      set e: Elt | e in cache
    }

    /** Slot i holds nothing or an element numbered i + 1, with the UID and sort entry the view shows. */
    ghost predicate Valid()
      reads this, Elts()
    {
      && view.nmsgs == nmsgs && view.validity == uidValidity && ValidView(view)
      && |cache| == |sc| == |view.slots|
      && (forall i :: 0 <= i < |cache| && cache[i] != null ==> cache[i].msgno == i + 1)
      && (forall i :: 0 <= i < |cache| ==>
            view.slots[i] == Slot(if cache[i] == null then 0 else cache[i].uid, sc[i]))
    }

    constructor ()
      ensures Valid() && view == View(0, [], 0)
    {
      nmsgs, cache, sc, uidValidity, lastUid, lastMsgno := 0, [], [], 0, 0, 0;
      view := View(0, [], 0);
    }

    /** mm_cache CH_SIZE: make the cache large enough for n messages. */
    method Resize(n: nat)
      requires Valid()
      modifies this`cache, this`sc, this`view
      ensures Valid() && Elts() == old(Elts()) && n <= |cache|
      ensures view == old(view).(slots := Sized(old(view).slots, n))
    {
      if cache == [] || n > |cache| {
        var more := n + CACHEINCREMENT - |cache|;
        cache := cache + seq(more, _ => null);
        sc := sc + seq(more, _ => 0);
      }
      view := view.(slots := Sized(view.slots, n));
    }

    /** mail_exists */
    method MailExists(n: nat)
      requires Valid()
      modifies this`nmsgs, this`cache, this`sc, this`view
      ensures Valid() && Elts() == old(Elts())
      ensures view == Heard(old(view), Exists(n))
    {
      if n <= MAXMESSAGES {
        Resize(n);
        nmsgs := n;
        view := view.(nmsgs := n);
      }
    }

    /** mail_elt: the element of a message, made if there is none yet. */
    method MailElt(msgno: nat) returns (elt: Elt)
      requires Valid() && 1 <= msgno <= nmsgs
      modifies this`cache
      ensures Valid() && |cache| == old(|cache|) && msgno <= |cache| && elt == cache[msgno - 1] && elt in cache
              && view == old(view)
      ensures fresh(Elts() - old(Elts()))
      ensures msgno <= |view.slots| && elt.uid == view.slots[msgno - 1].uid && elt.msgno == msgno
    {
      if cache[msgno - 1] == null {
        var e := new Elt(msgno);
        cache := cache[msgno - 1 := e];
      }
      elt := cache[msgno - 1];
    }

    lemma ViewFits()
      requires Valid()
      ensures ValidView(view) && nmsgs == view.nmsgs && |cache| == |view.slots|
    {
    }

    /** t is s with entry msgno - 1 gone, the used entries above it moved down, and none in their
        last place. */
    static ghost predicate Shifted<T>(s: seq<T>, t: seq<T>, msgno: nat, nmsgs: nat, none: T) {
      && 1 <= msgno <= nmsgs <= |s| == |t|
      && (forall j :: 0 <= j < msgno - 1 ==> t[j] == s[j])
      && (forall j :: msgno - 1 <= j < nmsgs - 1 ==> t[j] == s[j + 1])
      && t[nmsgs - 1] == none
      && (forall j :: nmsgs <= j < |s| ==> t[j] == s[j])
    }

    /** One element, and its sort entry, moves down by one. */
    method MoveDown(i: nat, m: nat)
      requires i + 1 == m < |cache| == |sc|
      modifies this`cache, this`sc, (if cache[m] == null then {} else {cache[m]})`msgno
      ensures cache == old(cache)[i := old(cache)[m]] && sc == old(sc)[i := old(sc)[m]]
      ensures cache[i] != null ==> cache[i].msgno == m
    {
      cache := cache[i := cache[m]];
      if cache[i] != null {
        cache[i].msgno := m;
      }
      sc := sc[i := sc[m]];
    }

    /** mm_cache CH_EXPUNGE: move everything above the message down by one, renumbering it. */
    method ExpungeSlot(msgno: nat)
      requires 1 <= msgno <= nmsgs <= |cache| == |sc|
      requires forall j :: 0 <= j < |cache| && cache[j] != null ==> cache[j].msgno == j + 1
      modifies this`cache, this`sc, Elts()
      ensures Shifted(old(cache), cache, msgno, nmsgs, null) && Shifted(old(sc), sc, msgno, nmsgs, 0)
      ensures forall j :: 0 <= j < |cache| && cache[j] != null ==> cache[j].msgno == j + 1
      ensures forall j :: 0 <= j < |old(cache)| && old(cache)[j] != null ==> old(cache)[j].uid == old(cache[j].uid)
    {
      ghost var c0, s0 := cache, sc;
      var i, m := msgno - 1, msgno;
      while m < nmsgs
        invariant i == m - 1 && msgno <= m <= nmsgs && |cache| == |sc| == |c0|
        invariant forall j :: 0 <= j < msgno - 1 || m - 1 <= j < |c0| ==> cache[j] == c0[j] && sc[j] == s0[j]
        invariant forall j :: msgno - 1 <= j < m - 1 ==> cache[j] == c0[j + 1] && sc[j] == s0[j + 1]
        invariant forall j :: 0 <= j < |c0| && c0[j] != null ==> c0[j].msgno == if msgno <= j < m then j else j + 1
        invariant forall j :: 0 <= j < |c0| && c0[j] != null ==> c0[j].uid == old(c0[j].uid)
      {
        assert c0[m] in c0;
        MoveDown(i, m);
        i, m := i + 1, m + 1;
      }
      cache := cache[i := null];
      sc := sc[i := 0];
    }

    static lemma ShiftedElts(s: seq<Elt?>, t: seq<Elt?>, msgno: nat, nmsgs: nat)
      requires Shifted(s, t, msgno, nmsgs, null)
      ensures forall e: Elt :: e in t ==> e in s
    {
      forall e: Elt | e in t
        ensures e in s
      {
        var j :| 0 <= j < |t| && t[j] == e;
        assert s[if msgno - 1 <= j < nmsgs - 1 then j + 1 else j] == e;
      }
    }
  
    /** The view after slots have been shifted is the view with a slot removed. */
    lemma ShiftedView(c0: seq<Elt?>, s0: seq<int>, msgno: nat, v: View, v': View)
      requires |c0| == |s0| == |v.slots| && ValidView(v) && 1 <= msgno <= v.nmsgs
      requires Shifted(c0, cache, msgno, v.nmsgs, null) && Shifted(s0, sc, msgno, v.nmsgs, 0)
      requires forall i :: 0 <= i < |c0| && i != msgno - 1 ==>
        v.slots[i] == Slot(if c0[i] == null then 0 else c0[i].uid, s0[i])
      requires v' == v.(nmsgs := v.nmsgs - 1, slots := Removed(v.slots, v.nmsgs, msgno))
      ensures forall i :: 0 <= i < |cache| ==>
        v'.slots[i] == Slot(if cache[i] == null then 0 else cache[i].uid, sc[i])
    {
    }

    /** mm_cache CH_FREE and CH_FREESORTCACHE: drop a message's element, and its sort entry with it. */
    method FreeSlot(msgno: nat)
      requires Valid() && 1 <= msgno <= nmsgs
      modifies this`cache, this`sc, Elts()
      ensures |cache| == |sc| == |old(cache)| && cache[msgno - 1] == null && view == old(view)
      ensures forall i :: 0 <= i < |cache| && i != msgno - 1 ==>
        && (cache[i] != null ==> cache[i].msgno == i + 1)
        && view.slots[i] == Slot(if cache[i] == null then 0 else cache[i].uid, sc[i])
      ensures Elts() <= old(Elts())
    {
      var elt := cache[msgno - 1];
      if elt != null {
        elt.msgno := 0;
        cache := cache[msgno - 1 := null];
        sc := sc[msgno - 1 := 0];
      }
    }

    /** mail_expunged */
    method MailExpunged(msgno: nat)
      requires Valid() && 1 <= msgno
      modifies this`nmsgs, this`cache, this`sc, this`view, Elts()
      ensures Valid() && Elts() <= old(Elts())
      ensures view == Heard(old(view), Expunge(msgno))
    {
      if msgno <= nmsgs {
        FreeSlot(msgno);
        ghost var c1, s1, v := cache, sc, view;
        ExpungeSlot(msgno);
        ShiftedElts(c1, cache, msgno, nmsgs);
        nmsgs := nmsgs - 1;
        view := Heard(view, Expunge(msgno));
        ShiftedView(c1, s1, msgno, v, view);
      }
    }

    /** Record the UID in the element of a message. */
    method SetUid(elt: Elt, msgno: nat, uid: nat)
      requires Valid() && 1 <= msgno <= nmsgs && msgno <= |cache| && cache[msgno - 1] == elt
      modifies elt`uid, this`view
      ensures Valid() && view == Heard(old(view), FetchUid(msgno, uid))
    {
      assert forall i :: 0 <= i < |cache| && i != msgno - 1 ==> cache[i] != elt;
      view := Heard(view, FetchUid(msgno, uid));
      elt.uid := uid;
    }

    /** FETCH ... UID: record the UID of a message the client knows of. */
    method FetchedUid(msgno: nat, uid: nat)
      requires Valid()
      modifies this`cache, this`view, this`lastUid, this`lastMsgno, Elts()
      ensures Valid() && fresh(Elts() - old(Elts()))
      ensures view == Heard(old(view), FetchUid(msgno, uid))
      ensures (lastUid, lastMsgno) == if 1 <= msgno <= nmsgs then (uid, msgno) else (old(lastUid), old(lastMsgno))
    {
      if msgno != 0 && msgno <= nmsgs {
        var elt := MailElt(msgno);
        SetUid(elt, msgno, uid);
        lastUid, lastMsgno := uid, elt.msgno;
      }
    }

    /** UIDVALIDITY: a new value makes every recorded UID worthless. */
    method NewUidValidity(validity: nat)
      requires Valid()
      modifies this`uidValidity, this`view, Elts()
      ensures Valid() && cache == old(cache)
      ensures view == Heard(old(view), UidValidity(validity))
    {
      if validity != uidValidity {
        uidValidity := validity;
        for j := 0 to nmsgs
          invariant view == old(view) && uidValidity == validity
          invariant forall i :: 0 <= i < |cache| && cache[i] != null ==>
            cache[i].msgno == i + 1 && cache[i].uid == if i < j then 0 else old(view).slots[i].uid
        {
          if cache[j] != null {
            cache[j].uid := 0;
          }
        }
        view := Heard(view, UidValidity(validity));
      }
    }

    /** One untagged response. */
    method Handle(r: Response)
      requires Valid()
      modifies this, Elts()
      ensures Valid() && fresh(Elts() - old(Elts()))
      ensures view == Heard(old(view), r)
      ensures (lastUid, lastMsgno) ==
        if r.FetchUid? && 1 <= r.msgno <= old(nmsgs) then (r.uid, r.msgno) else (old(lastUid), old(lastMsgno))
    {
      match r
      case Exists(n) => MailExists(n);
      case Expunge(k) => if k != 0 && k <= nmsgs { MailExpunged(k); }
      case FetchUid(k, uid) => FetchedUid(k, uid);
      case UidValidity(v) => NewUidValidity(v);
    }

    /** All the responses up to the tagged one. */
    method HandleAll(rs: seq<Response>)
      requires Valid()
      modifies this, Elts()
      ensures Valid() && fresh(Elts() - old(Elts()))
      ensures view == HeardAll(old(view), rs)
      ensures old(lastUid) == old(lastMsgno) == 0 ==> (lastUid, lastMsgno) == LastUid(old(view), rs)
    {
      for i := 0 to |rs|
        invariant Valid() && fresh(Elts() - old(Elts()))
        invariant view == HeardAll(old(view), rs[..i])
        invariant old(lastUid) == old(lastMsgno) == 0 ==> (lastUid, lastMsgno) == LastUid(old(view), rs[..i])
      {
        HeardOneMore(old(view), rs, i);
        Handle(rs[i]);
      }
      assert rs[..|rs|] == rs;
    }

    /** The first loop of imap_msgno: look for the UID, and for messages whose UID is not known. */
    method ScanUids(uid: nat) returns (r: nat, holes: bool)
      requires Valid()
      modifies this`cache
      ensures Valid() && fresh(Elts() - old(Elts())) && view == old(view)
      ensures r == if uid == 0 then 0 else FirstWith(view, uid, 0)
      ensures r == 0 ==> holes == HoleBelow(view, view.nmsgs)
    {
      hide Valid;
      ViewFits();
      holes := false;
      var msgno := 1;
      while msgno <= nmsgs
        invariant Valid() && fresh(Elts() - old(Elts())) && view == old(view) && 1 <= msgno <= nmsgs + 1
        invariant nmsgs == view.nmsgs && ValidView(view)
        invariant holes == HoleBelow(view, msgno - 1)
        invariant uid != 0 ==> FirstWith(view, uid, 0) == FirstWith(view, uid, msgno - 1)
      {
        var elt := MailElt(msgno);
        if elt.uid == 0 {
          holes := true;
        } else if elt.uid == uid {
          return msgno, holes;
        }
        msgno := msgno + 1;
      }
      return 0, holes;
    }

    /** imap_msgno; a server below IMAP4 has no UIDs. */
    method ImapMsgno(imap4: bool, uid: nat, rs: seq<Response>) returns (r: nat)
      requires Valid()
      modifies this, Elts()
      ensures Valid() && fresh(Elts() - old(Elts()))
      ensures r == if imap4 then MsgnoOf(old(view), uid, rs) else uid
      ensures view == if imap4 && Asks(old(view), uid) then HeardAll(old(view), rs) else old(view)
    {
      if !imap4 {
        return uid;
      }
      var holes;
      r, holes := ScanUids(uid);
      if r != 0 {
        return r;
      }
      if holes {
        lastUid, lastMsgno := 0, 0;
        HandleAll(rs);
        r := ReadAnswer(uid);
      }
    }

    /** The end of imap_msgno, the server having been asked. */
    method ReadAnswer(uid: nat) returns (r: nat)
      requires Valid() && (lastUid != 0 ==> lastMsgno >= 1)
      modifies this`cache
      ensures Valid() && fresh(Elts() - old(Elts())) && view == old(view)
      ensures r == Answer(view, uid, (lastUid, lastMsgno))
    {
      hide Valid;
      ViewFits();
      if lastUid == 0 {
        return 0;
      }
      var last := LastIs(uid);
      if last {
        return lastMsgno;
      }
      r := FindUid(uid);
    }

    /** Does the last answer give the message with this UID? */
    method LastIs(uid: nat) returns (found: bool)
      requires Valid() && lastMsgno >= 1
      modifies this`cache
      ensures Valid() && fresh(Elts() - old(Elts())) && view == old(view)
      ensures found <==> lastUid == uid && lastMsgno <= view.nmsgs && view.slots[lastMsgno - 1].uid == uid
    {
      hide Valid;
      ViewFits();
      if lastUid != uid || lastMsgno > nmsgs {
        return false;
      }
      var elt := MailElt(lastMsgno);
      return elt.uid == uid;
    }

    /** Linear search for a UID. */
    method FindUid(uid: nat) returns (r: nat)
      requires Valid()
      modifies this`cache
      ensures Valid() && fresh(Elts() - old(Elts())) && view == old(view)
      ensures r == FirstWith(view, uid, 0)
    {
      var msgno := 1;
      while msgno <= nmsgs
        invariant Valid() && fresh(Elts() - old(Elts())) && view == old(view) && 1 <= msgno <= nmsgs + 1
        invariant FirstWith(view, uid, 0) == FirstWith(view, uid, msgno - 1)
      {
        var elt := MailElt(msgno);
        if elt.uid == uid {
          return msgno;
        }
        msgno := msgno + 1;
      }
      return 0;
    }
  }
}
