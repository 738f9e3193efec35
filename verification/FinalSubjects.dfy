/** When each subject still has one thread after the final sort, which may change the child that speaks for a
    dummy. */
module FinalSubjects {
  import opened Arrange
  import opened Containers
  import opened Forests
  import opened ForestSort
  import opened Linking
  import opened Messages
  import opened Prune
  import opened SubjectMerge
  import opened ThreadNodes
  import opened ThreadSort

  /** The subject of the message at a node. */
  ghost function SubjectAt(msgs: seq<Message>, sc: seq<int>, x: int): string {
    if IsMessage(sc, x) && 0 <= sc[x] < |msgs| then msgs[sc[x]].subject else ""
  }

  ghost predicate Earliest(sc: seq<int>, dates: seq<nat>, k: Forest, y: int) {
    y in Tops(k) && forall z :: z in Tops(k) ==> DateOf(sc, dates, y, Nil) <= DateOf(sc, dates, z, Nil)
  }

  /** After the final sort y may speak for the thread x: a message for itself, an earliest child for a dummy. */
  ghost predicate Speaks(sc: seq<int>, dates: seq<nat>, f: Forest, x: int, y: int) {
    if IsMessage(sc, x) then y == x else Earliest(sc, dates, KidsOf(f, x), y)
  }

  ghost predicate Clash(msgs: seq<Message>, sc: seq<int>, dates: seq<nat>, f: Forest, x: int, x': int, y: int,
                        y': int) {
    && x in Tops(f) && x' in Tops(f) && x != x'
    && Speaks(sc, dates, f, x, y) && Speaks(sc, dates, f, x', y')
    && SubjectAt(msgs, sc, y) == SubjectAt(msgs, sc, y') != ""
  }

  /** No two threads can come to speak for the same subject. */
  ghost predicate SpeakersDiffer(msgs: seq<Message>, sc: seq<int>, dates: seq<nat>, f: Forest) {
    forall x, x', y, y' :: !Clash(msgs, sc, dates, f, x, x', y, y')
  }

  /** What the final sort may make of f. */
  ghost predicate SortedForm(sc: seq<int>, dates: seq<nat>, f: Forest, f': Forest) {
    SameFamilies(f, f') && DateSorted(sc, dates, f')
  }

  /** Each subject has one thread, whatever the final sort makes of f. */
  ghost predicate StayApart(msgs: seq<Message>, sc: seq<int>, dates: seq<nat>, f: Forest) {
    forall f' :: SortedForm(sc, dates, f, f') ==> SubjectsDiffer(Roots(msgs, sc, f'))
  }

  lemma {:induction false} StayApartAfter(msgs: seq<Message>, sc: seq<int>, dates: seq<nat>, f: Forest, f': Forest)
    requires SortedForm(sc, dates, f, f')
    ensures StayApart(msgs, sc, dates, f) ==> SubjectsDiffer(Roots(msgs, sc, f'))
  {
  }

  // ----- who speaks -----

  ghost function Speaker(sc: seq<int>, f: Forest, x: int): int {
    if IsMessage(sc, x) then x else if KidsOf(f, x).Cons? then KidsOf(f, x).id else NIL
  }

  lemma {:induction false} RootAt(msgs: seq<Message>, sc: seq<int>, f: Forest, i: nat)
    requires Distinct(f) && i < |Tops(f)|
    ensures Roots(msgs, sc, f)[i] == RootOf(msgs, sc, Tops(f)[i], KidsOf(f, Tops(f)[i]))
    decreases f
  {
    if i > 0 {
      RootAt(msgs, sc, f.rest, i - 1);
      TopsAreIds(f.rest);
      assert Tops(f)[i] == Tops(f.rest)[i - 1];
    }
  }

  lemma {:induction false} RootSpeaks(msgs: seq<Message>, sc: seq<int>, f: Forest, i: nat)
    requires Distinct(f) && i < |Tops(f)|
    ensures Roots(msgs, sc, f)[i].subject == SubjectAt(msgs, sc, Speaker(sc, f, Tops(f)[i]))
  {
    hide Roots, KidsOf, Tops, Distinct;
    RootAt(msgs, sc, f, i);
  }

  lemma KidsDateSorted(sc: seq<int>, dates: seq<nat>, f: Forest, x: int)
    requires DateSorted(sc, dates, f)
    ensures DateSorted(sc, dates, KidsOf(f, x))
  {
  }

  /** In a list of messages in date order the first is an earliest one. */
  lemma {:induction false} FirstIsEarliest(sc: seq<int>, dates: seq<nat>, k: Forest)
    requires DateSorted(sc, dates, k) && Distinct(k) && AllMessages(sc, k) && ValidCache(sc, |dates|) && k.Cons?
    ensures Earliest(sc, dates, k, k.id)
  {
    AllMessagesIds(sc, k);
    TopsAreIds(k);
    MessageDate(sc, dates, k.id, k.kids);
    forall z | z in Tops(k)
      ensures DateOf(sc, dates, k.id, Nil) <= DateOf(sc, dates, z, Nil)
    {
      SortedFirst(sc, dates, k, z);
      MessageDate(sc, dates, z, KidsOf(k, z));
    }
  }

  /** Who speaks for a thread in the end could speak for it before. */
  lemma {:induction false} SpeakerSpeaks(sc: seq<int>, dates: seq<nat>, f: Forest, f': Forest, x: int)
    requires SortedForm(sc, dates, f, f') && Tidy(sc, f) && ValidCache(sc, |dates|) && x in Tops(f)
    ensures Speaks(sc, dates, f, x, Speaker(sc, f', x))
  {
    if !IsMessage(sc, x) {
      var (k, k') := (KidsOf(f, x), KidsOf(f', x));
      TidyFamilies(sc, f, f');
      assert x in Tops(f');
      TidyTop(sc, f', x);
      KidsDateSorted(sc, dates, f', x);
      KidsOfFacts(f', x);
      FirstIsEarliest(sc, dates, k');
      assert forall z :: z in Tops(k) <==> z in Tops(k');
    }
  }

  // ----- exactly when the subjects stay apart -----

  lemma {:induction false} SubjectsStayApart(msgs: seq<Message>, sc: seq<int>, dates: seq<nat>, f: Forest, f': Forest)
    requires SortedForm(sc, dates, f, f') && Tidy(sc, f) && ValidCache(sc, |dates|)
    requires SpeakersDiffer(msgs, sc, dates, f)
    ensures SubjectsDiffer(Roots(msgs, sc, f'))
  {
    var rs := Roots(msgs, sc, f');
    RootsDiffer(msgs, sc, f');
    forall i, j | 0 <= i < j < |rs| && rs[i].subject != ""
      ensures rs[i].subject != rs[j].subject
    {
      var (x, x') := (Tops(f')[i], Tops(f')[j]);
      assert x in Tops(f) && x' in Tops(f);
      RootSpeaks(msgs, sc, f', i);
      RootSpeaks(msgs, sc, f', j);
      SpeakerSpeaks(sc, dates, f, f', x);
      SpeakerSpeaks(sc, dates, f, f', x');
      assert !Clash(msgs, sc, dates, f, x, x', Speaker(sc, f', x), Speaker(sc, f', x'));
    }
  }

  /** The sort that lets y speak for x. */
  lemma {:induction false} ChosenSpeaks(sc: seq<int>, dates: seq<nat>, f: Forest, x: int, y: int, first: set<int>)
    requires Distinct(f) && Tidy(sc, f) && ValidCache(sc, |dates|) && x in Tops(f)
    requires Speaks(sc, dates, f, x, y) && y in first
    requires forall z :: z in Ids(KidsOf(f, x)) && z in first ==> z == y
    ensures Speaker(sc, Sorted(sc, dates, first, f), x) == y
  {
    if !IsMessage(sc, x) {
      var k := KidsOf(f, x);
      TidyTop(sc, f, x);
      KidsOfFacts(f, x);
      TopsAreIds(k);
      ChosenIsFirst(sc, dates, first, k, y);
      SortedKids(sc, dates, first, f, x);
    }
  }

  /** Two threads that can come to speak for the same subject do, after some sort. */
  lemma {:induction false} ClashComesTrue(msgs: seq<Message>, sc: seq<int>, dates: seq<nat>, f: Forest,
                                          x: int, x': int, y: int, y': int)
    requires Distinct(f) && Tidy(sc, f) && ValidCache(sc, |dates|) && Clash(msgs, sc, dates, f, x, x', y, y')
    ensures var f' := Sorted(sc, dates, {y, y'}, f);
            SortedForm(sc, dates, f, f') && !SubjectsDiffer(Roots(msgs, sc, f'))
  {
    var f' := Sorted(sc, dates, {y, y'}, f);
    SortedFamilies(sc, dates, {y, y'}, f);
    SortedIsSorted(sc, dates, {y, y'}, f);
    Apart(sc, dates, f, x, x', y, y');
    Apart(sc, dates, f, x', x, y', y);
    ChosenSpeaks(sc, dates, f, x, y, {y, y'});
    ChosenSpeaks(sc, dates, f, x', y', {y, y'});
    assert x in Tops(f') && x' in Tops(f');
    OneSubjectTwice(msgs, sc, f', x, x');
  }

  lemma {:induction false} OneSubjectTwice(msgs: seq<Message>, sc: seq<int>, f: Forest, x: int, x': int)
    requires Distinct(f) && x in Tops(f) && x' in Tops(f) && x != x'
    requires SubjectAt(msgs, sc, Speaker(sc, f, x)) == SubjectAt(msgs, sc, Speaker(sc, f, x')) != ""
    ensures !SubjectsDiffer(Roots(msgs, sc, f))
  {
    var rs := Roots(msgs, sc, f);
    var i :| 0 <= i < |rs| && Tops(f)[i] == x;
    var j :| 0 <= j < |rs| && Tops(f)[j] == x';
    RootSpeaks(msgs, sc, f, i);
    RootSpeaks(msgs, sc, f, j);
    assert rs[i].subject == rs[j].subject != "";
    assert i < j || j < i;
  }

  /** The speaker of one thread is not in another. */
  lemma {:induction false} Apart(sc: seq<int>, dates: seq<nat>, f: Forest, x: int, x': int, y: int, y': int)
    requires Distinct(f) && x in Tops(f) && x' in Tops(f) && x != x' && Speaks(sc, dates, f, x', y')
    ensures y' !in Ids(KidsOf(f, x))
  {
    TopsApart(f, x, x');
    TopsAreIds(KidsOf(f, x'));
  }

  /** Whatever the final sort makes of a tidy forest, each subject has one thread in it, if and only if no two threads
      can come to speak for the same subject. */
  lemma {:induction false} SubjectsStayApartExactly(msgs: seq<Message>, sc: seq<int>, dates: seq<nat>, f: Forest)
    requires Distinct(f) && Tidy(sc, f) && ValidCache(sc, |dates|)
    ensures SpeakersDiffer(msgs, sc, dates, f) <==> StayApart(msgs, sc, dates, f)
  {
    if SpeakersDiffer(msgs, sc, dates, f) {
      forall f' | SortedForm(sc, dates, f, f')
        ensures SubjectsDiffer(Roots(msgs, sc, f'))
      {
        SubjectsStayApart(msgs, sc, dates, f, f');
      }
    } else {
      var x, x', y, y' :| Clash(msgs, sc, dates, f, x, x', y, y');
      ClashComesTrue(msgs, sc, dates, f, x, x', y, y');
    }
  }
}
