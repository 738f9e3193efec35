# The algorithms of the mail client library, verified

The repository bundles the c-client mail library. This project models the algorithms of that library in
Dafny and proves what they are for. It has six parts.

**Threading** (`mail_thread_references`, RFC 5256 section 3 describes the same algorithm). Containers and
nodes carry raw parent, child and sibling links, here vectors indexed by container or node number. A value of
the datatype `Forest` says which forest such links encode, and every piece of link surgery (linking by
references, cutting off, adopting, pruning dummies by promotion, converting, merging by subject, sorting) is a
method proved to do to the links exactly what a function says about the forest. Step 1 is told a second time by the
recorded mothers alone. The properties are then proved: nothing is ever its own ancestor, no message is lost or
doubled, every mother comes from a reference, messages nobody has do not break a chain of references, whatever the
references put below a message stays below it to the end and nothing but replies to its subject joins it there,
dummies survive only at top level over at least two messages, the threads of one subject become one, with a known
leader, and when that lasts to the end, every list is in date order and fits the scratch array. The reading order is
Forest, Linking, ReferenceChains, ReferenceLinks, FamilyOrder, ThreadForest, MissingReferences, Prune, PrunedTrees,
ThreadNodes, ThreadSort, SubjectMerge, MergeLinks, SubjectGather, ThreadAncestry, AncestryOrigins, ForestSort,
FinalSubjects, Threading, ThreeMessages.

**The message cache** (CacheModel, MessageCache). A server mailbox is a sequence of unique identifiers; EXISTS,
EXPUNGE, FETCH UID and UIDVALIDITY are its steps. Over every run of a consistent server the client's cache
agrees with the mailbox and comes to know of every message, so that the lookup of a message by unique identifier
names the right message, and finds it when the server gives it.

**Transfer encodings** (QuotedPrintable, QuotedText, QuotedReading; Base64, Base64Reading). Round trips, line lengths
and allocation bounds of the two printer and parser pairs (sections 6.7 and 6.8 of RFC 2045), what the printers write
byte by byte, and what the parsers make of any text.

**Interval sets as text** (Newsrc, NewsrcList; Sequences, SequenceErrors, Overview, Rewriting, CommandSplit,
UidSequences). The read ranges
of a newsgroup and the message sequences of IMAP are written, read, checked, rewritten and split; each text is
given its meaning as a set of numbers, and the routines are proved to keep it.

**MD5 in pieces** (Md5Rounds, Md5Transform, Md5, Md5Constants, Md5Context). Buffered update and final against the
digest of the whole message (RFC 1321), and the masking that makes a 64-bit `unsigned long` behave like a 32-bit word.

**Search and calendar** (Search, Calendar). Fast forms against simple specifications.

## Where the code and what it promises differ

- `imap_msgno` may name a message when it is asked for UID 0, which no message has: `CacheModel.MsgnoIsRight`
  proves it right for every other UID, `CacheModel.ZeroUidNamesAMessage` gives the inputs on which it fails, and
  `CacheModel.MsgnoNeverWrong` both directions.
- `newsrc_check_uid` and `newsrc_read` agree on every list of ranges, ascending or not, except when a range
  runs backwards; then the checker gives up. `Newsrc.CheckAgreesExactly` proves both directions.
- `search` finds nothing in an empty base, not even the empty pattern that always succeeds elsewhere:
  the contract of `Search.Search` has the condition, `Search.EmptyBase` the one case in which it matters.
- Short dates do not always order dates: 1-Jan-2000 counts before 1-Jan-2100, a date that a SEARCH in imapd.c may
  well name (imap/src/imapd/imapd.c:2047), yet has the later short date (`Calendar.ShortDateFails`). The short dates
  of the first n years are in the order of the calendar if and only if n is at most 128
  (`Calendar.ShortDateOrdersExactly`).
- MD5 of 2 to the 64 bytes or more: with a 64-bit `unsigned long` the carry into `chigh` counts 2 to the 64 bytes, but
  `md5_final` adds it to the length as if it counted 2 to the 32. `Md5.CountInBits` proves for which lengths the two
  words are right, both directions; `Md5.CountFails` has the first length for which they are not.
- An = that begins no quote is meant to stand for itself, with what follows it (imap/src/c-client/rfc822.c:1923-1925),
  but of "=4G" the G is lost: `QuotedReading.LosesSecond`. `QuotedReading.BadQuoteKeptExactly` proves that nothing is
  lost if and only if the byte after the = is no hexadecimal digit.
- One thread per subject holds after the merge, but the final sort can put another child in front of a dummy, which
  then has the subject of another thread: `ThreeMessages.ThreadThree` gives three messages for which every run ends so.
  `FinalSubjects.SubjectsStayApartExactly` proves that each subject keeps one thread, whatever order `qsort` leaves
  equal dates in, if and only if no two threads have possible speakers with one subject, a dummy's being its
  earliest-dated children.

## Model

| member | source | states |
|---|---|---|
| `ReferenceLinks.CheckChild` | imap/src/c-client/mail.c:5025-5033 | the loop check answers exactly whether the purported mother is the daughter or in her subtree |
| `ReferenceLinks.LinkReference` | imap/src/c-client/mail.c:4736-4741 | a reference link is made exactly when the child has no mother and would not become its own ancestor; the links encode the forest in which it, with its subtree, has become the eldest child |
| `ReferenceLinks.LinkEncodes` | imap/src/c-client/mail.c:4737-4740 | the three link changes of step 1A encode that forest, every container in it once |
| `ReferenceLinks.Unlink` | imap/src/c-client/mail.c:4745-4755 | cutting a container off, first child or later sister, makes it a root and leaves all other families alone; the sister scan always finds it |
| `ReferenceLinks.UnlinkEncodes` | imap/src/c-client/mail.c:4747-4753 | bridging over a child and clearing its links encodes the forest with that child as a root |
| `ReferenceLinks.Adopt` | imap/src/c-client/mail.c:4757-4767 | the container becomes the youngest child of its last reference, or stays a root when there is none or that would be a loop |
| `ReferenceLinks.AdoptEncodes` | imap/src/c-client/mail.c:4758-4766 | hanging a root behind the youngest child encodes the forest with it moved there |
| `ReferenceLinks.FollowReferences` | imap/src/c-client/mail.c:4731-4743 | following a reference list yields the container of its last entry, adds only dummies, and changes the recorded mothers exactly as linking its pairs one after the other does, the newer reference under the older when she has no mother and is not above her already |
| `ReferenceLinks.PlaceMessage` | imap/src/c-client/mail.c:4745-4767 | after a message's own step its mother is its last reference, or none when it has none or that lies in its own subtree; no other mother changes |
| `ReferenceLinks.ThreadMessage` | imap/src/c-client/mail.c:4729-4768 | one message of step 1: its pairs of references are linked, then it gets its last reference for its mother unless that is itself or below it; no other recorded mother changes |
| `ReferenceChains.OnlyPairsLink` | imap/src/c-client/mail.c:4731-4743 | a container that a reference list gives a mother is named in it right after her |
| `ReferenceChains.AllPairsLink` | imap/src/c-client/mail.c:4731-4743 | of every pair of consecutive references the newer one has a mother in the end, or the older one can climb to it |
| `ReferenceChains.FreePairLinks` | imap/src/c-client/mail.c:4735-4741 | a pair that is free when its turn comes is linked, the newer one under the older |
| `FamilyOrder.EldestFirst` | imap/src/c-client/mail.c:4738-4740 | a reference link puts the child before its sisters and changes no other family |
| `FamilyOrder.YoungestLast` | imap/src/c-client/mail.c:4759-4766 | a message's own step puts it behind its sisters and changes no other family |
| `ReferenceLinks.MoveFacts` | imap/src/c-client/mail.c:4736-4767 | moving a subtree under a container outside it loses and doubles no container |
| `Linking.NoLoop` | imap/src/c-client/mail.c:4736-4757 | in the links of step 1 no container reaches itself by climbing to mothers, however often |
| `Linking.ListedOnce` | imap/src/c-client/mail.c:4728-4768 | a child list holds exactly the containers that record that mother, each once |
| `Linking.MotherLists` | imap/src/c-client/mail.c:4745-4753 | a container with a recorded mother is in that mother's child list, and one without is a root |
| `Linking.WithinIsAncestry` | imap/src/c-client/mail.c:5025-5033 | being in the subtree searched by the loop check is the same as reaching its head by climbing recorded mothers |
| `Linking.LinkedSetKids` | imap/src/c-client/mail.c:4737-4766 | replacing the children of one container changes the encoded forest there and nowhere else |
| `ThreadForest.NameIsOwn` | imap/src/c-client/mail.c:4716-4726 | a message is filed under its message ID unless an earlier one has it; the names stay distinct |
| `ThreadForest.RegisterMessages` | imap/src/c-client/mail.c:4715-4727 | every message gets its own container under its unique name |
| `ThreadForest.LinkMessages` | imap/src/c-client/mail.c:4728-4768 | after all messages the links encode the forest of step 1, the recorded mothers are those told without children and sisters, and every message that got a mother in its own step, namely its last reference when that was not in its own subtree, still has her |
| `ThreadForest.OwnMotherNamed` | imap/src/c-client/mail.c:4728-4768 | when the last reference names another message, that message is the mother given, and none is given when it lies in the subtree of the message at that time |
| `ThreadForest.MothersInForest` | imap/src/c-client/mail.c:4745-4767 | a message with such a mother is in her child list in the forest of step 1 |
| `ThreadForest.EncodedMothers` | imap/src/c-client/mail.c:4728-4768 | the forest is that of the recorded mothers: children are those that record a mother, and being below is being able to climb |
| `MissingReferences.MothersHaveSources` | imap/src/c-client/mail.c:4728-4768 | every recorded mother of a container is the last reference of that message, or some other message names her right before it |
| `MissingReferences.BridgeHolds` | imap/src/c-client/mail.c:4728-4768 | a message that refers to another one and then only to messages nobody has, not named before, ends below the other, unless that was itself or below it |
| `ThreadForest.CollectRoots` | imap/src/c-client/mail.c:4771-4779 | scanning the hash table strings exactly the parentless containers into one list, each once, and leaves every family as it was |
| `Arrange.ArrangedFacts` | imap/src/c-client/mail.c:4771-4779 | listing each root once in any order rearranges the forest and changes nothing below a root |
| `HashTable.HashTab.Lookup` | imap/src/c-client/misc.c:310-316 | finds exactly what the map the table stands for has under that name |
| `HashTable.HashTab.Add` | imap/src/c-client/misc.c:327-336 | adds one entry to the map and changes no other |
| `HashTable.HashTab.LookupAndAdd` | imap/src/c-client/misc.c:347-359 | yields the entry there is, or adds one |
| `HashTable.HashTab.Reset` | imap/src/c-client/misc.c:277-287 | empties the map |
| `Prune.PruneDummy` | imap/src/c-client/mail.c:4970-4978 | in-place pruning terminates and leaves links encoding the pruned form of the forest; outside the forest only the mother's child link may change |
| `Prune.PruneDummyWork` | imap/src/c-client/mail.c:4988-5017 | settles one position: the dummy there is dropped, replaced by its children, or kept at top level over several |
| `Prune.Promote` | imap/src/c-client/mail.c:5004-5011 | the children take the dummy's place among its sisters, in order |
| `Prune.HeadFewer` | imap/src/c-client/mail.c:4999-5013 | every re-pruning call has fewer dummies, or as many and fewer containers, so the recursion ends |
| `Prune.PrunedTidy` | imap/src/c-client/mail.c:4963-5017 | dummies are left only at top level, each over at least two children, all of them messages |
| `Prune.PrunedKeepsMessages` | imap/src/c-client/mail.c:4963-5017 | pruning keeps the pre-order sequence of messages |
| `Prune.PrunedKeepsAncestors` | imap/src/c-client/mail.c:4963-5017 | between messages, being an ancestor is neither added nor removed |
| `PrunedTrees.PrunedKeepsTrees` | imap/src/c-client/mail.c:4963-5017 | two messages are in one thread after pruning exactly when they were before |
| `Prune.PromotedIsSettled` | imap/src/c-client/mail.c:5012-5013 | promoted children are messages already pruned: pruning them again where they land changes nothing but the sisters behind them |
| `Prune.HeadThenRest` | imap/src/c-client/mail.c:4973-4977 | settling the first position and then the younger sisters prunes the whole list |
| `ThreadNodes.C2Node` | imap/src/c-client/mail.c:5043-5060 | the nodes built have the shape of the containers and hold the same messages in the same places, with their numbers |
| `ThreadNodes.MirrorsFacts` | imap/src/c-client/mail.c:5043-5060 | such nodes hold the same messages in the same pre-order and are as tidy as the containers |
| `ThreadSort.SortLevel` | imap/src/c-client/mail.c:5077-5083 | loading a list into the scratch array, sorting and relinking leaves the same threads in date order |
| `ThreadSort.MailThreadSort` | imap/src/c-client/mail.c:5068-5085 | every sister list, at every level, ends in date order with all families unchanged; the scratch array shared by all levels is never overrun |
| `ThreadSort.TopsAreFew` | imap/src/c-client/mail.c:4791-4793 | a tidy list has no more entries than there are messages, so it fits the scratch array |
| `ThreadSort.SortedFirst` | imap/src/c-client/mail.c:5088-5110 | in a sorted list the first entry has the earliest date, so a dummy is dated by its earliest child |
| `ThreadSort.KeysAreDates` | imap/src/c-client/mail.c:5088-5110 | a list sorted by the dates read off the links is in the date order of the forest they encode |
| `ThreadSort.TidyFamilies` | imap/src/c-client/mail.c:5068-5085 | reordering keeps dummies at top level over at least two messages |
| `ThreadSort.KidsIdsFamilies` | imap/src/c-client/mail.c:5068-5085 | reordering keeps everything below each node |
| `MergeLinks.FileSubjects` | imap/src/c-client/mail.c:4803-4813 | each subject is filed under the first of its best threads: a dummy, else one that is no reply, else any |
| `MergeLinks.FiledIsOk` | imap/src/c-client/mail.c:4803-4813 | a table filed that way starts the merge off |
| `MergeLinks.AbsorbThread` | imap/src/c-client/mail.c:4821-4843 | the current thread, or the children of a current dummy, become the youngest children of the filed thread, wherever that stands relative to it |
| `MergeLinks.AbsorbLinks` | imap/src/c-client/mail.c:4825-4843 | the link changes encode that forest, whether the filed thread is passed, ahead, the root or the sister before |
| `MergeLinks.PairThreads` | imap/src/c-client/mail.c:4846-4872 | the filed thread is taken out of the list wherever it is and goes with the current one under a new dummy in the current place |
| `MergeLinks.PairLinks` | imap/src/c-client/mail.c:4847-4872 | the link changes of that case encode the merged forest and the rest of the list |
| `MergeLinks.MergeThread` | imap/src/c-client/mail.c:4816-4873 | one round is exactly one step of the merge on forests |
| `MergeLinks.MergeSubjects` | imap/src/c-client/mail.c:4801-4873 | the in-place pass ends with the links encoding the merged forest, and with different subjects |
| `SubjectMerge.MergeStepKeeps` | imap/src/c-client/mail.c:4816-4873 | each step keeps dummies at top level over messages, every table entry on the list, and all messages with multiplicity |
| `SubjectMerge.FiledIsPassed` | imap/src/c-client/mail.c:4846-4866 | when two messages are paired the filed one has been passed, so the scan for its elder sister finds it |
| `SubjectMerge.MergeAllFacts` | imap/src/c-client/mail.c:4815-4873 | the whole merge loses and doubles no message and ends with at most one top-level thread per non-empty subject, each filed subject on the list |
| `SubjectGather.StepGathers` | imap/src/c-client/mail.c:4816-4873 | in every step each message follows the thread it is in |
| `SubjectGather.AllGather` | imap/src/c-client/mail.c:4815-4873 | what is in a thread that speaks of a subject ends in the thread filed under it |
| `SubjectGather.LeaderIs` | imap/src/c-client/mail.c:4803-4873 | the first dummy leads the threads of its subject; without one, the only thread that is no reply, or the only one at all |
| `SubjectGather.NewDummyLeads` | imap/src/c-client/mail.c:4846-4872 | without a dummy, two originals, or two replies with no original, bring the threads of the subject under a new dummy |
| `SubjectGather.MergeGathers` | imap/src/c-client/mail.c:4801-4880 | messages from threads of one subject are in one thread of the finished tree |
| `AncestryOrigins.MergeStepBelow` | imap/src/c-client/mail.c:4816-4873 | a step of the merge puts under a message nothing but a reply to its subject, with all below that, and only when both head threads |
| `AncestryOrigins.MirroredAbove` | imap/src/c-client/mail.c:5043-5060 | ancestry between nodes is ancestry between their containers |
| `AncestryOrigins.FromReferences` | imap/src/c-client/mail.c:4728-4799 | up to the merge a message is below another only where step 1 left it |
| `AncestryOrigins.AncestorsHaveReasons` | imap/src/c-client/mail.c:4728-4880 | if a message is below another in the finished tree, step 1 left it there, or it is, or was left by step 1 below, a reply to the subject of the other that headed a thread as the other did |
| `FinalSubjects.SpeakerSpeaks` | imap/src/c-client/mail.c:4875-4880 | after the final sort a message speaks for itself and an earliest-dated child for a dummy |
| `FinalSubjects.ClashComesTrue` | imap/src/c-client/mail.c:4875-4880 | two threads with possible speakers of one subject have that subject after some sort by date |
| `FinalSubjects.SubjectsStayApartExactly` | imap/src/c-client/mail.c:4815-4880 | every sort by date of a tidy forest leaves each subject one thread if and only if no two threads have possible speakers of one subject |
| `ThreadAncestry.MergeStepAbove` | imap/src/c-client/mail.c:4816-4873 | no step of the merge takes a message out from under another message |
| `ThreadAncestry.MirrorsAbove` | imap/src/c-client/mail.c:5043-5060 | ancestry between containers is ancestry between their nodes |
| `ThreadAncestry.ReferencesKept` | imap/src/c-client/mail.c:4728-4880 | if step 1 left one message below another, it is below it in the finished tree |
| `Threading.HeldCount` | imap/src/c-client/mail.c:4786-4880 | how often a forest holds a message depends only on which nodes it has |
| `Threading.ListsFit` | imap/src/c-client/mail.c:4790-4799 | a list of threads that holds every message once has no more entries than the scratch array has slots |
| `Threading.MothersStand` | imap/src/c-client/mail.c:4728-4880 | a message whose own step gave it another message for its mother is below that message in the finished tree |
| `Threading.MailThreadReferences` | imap/src/c-client/mail.c:4639-4880 | the result holds every searched message exactly once, is in date order at every level, keeps dummies at top level over at least two messages, keeps every message below the one its last reference made its mother and below the one before messages nobody has, brings the threads of one subject into one, and below a message whatever else the references put there and, beyond that, nothing but replies to its subject with what followed them; each subject keeps its one thread in every final order if and only if no two threads have possible speakers of one subject; between the steps, the forest of step 1 is that of the references, its pruned form is what the nodes mirror, step 4 only reorders its top level by date, and step 5 is the merge |
| `ThreeMessages.ThreeThreaded` | imap/src/c-client/mail.c:4715-4768 | step 1 puts two of the three messages under the dummy of the message they refer to, and leaves the third alone |
| `ThreeMessages.ThreadThree` | imap/src/c-client/mail.c:4639-4880 | every run on these three messages leaves threads of different subjects after the merge and two of one subject in the end |
| `MessageCache.Stream.Resize` | imap/src/c-client/mail.c:141-159 | the cache covers the new number of messages, and new slots are empty |
| `MessageCache.Stream.MailExists` | imap/src/c-client/mail.c:2986-3001 | more messages than the maximum are refused; otherwise the count is taken over and no known message forgotten |
| `MessageCache.Stream.MailElt` | imap/src/c-client/mail.c:1305-1314 | the element of message i is numbered i, and is made without UID when there is none |
| `MessageCache.Stream.ExpungeSlot` | imap/src/c-client/mail.c:198-206 | everything above moves down by one slot and is renumbered, the place at the end is cleared |
| `MessageCache.Stream.MailExpunged` | imap/src/c-client/mail.c:3026-3053 | the client's view loses exactly that message |
| `MessageCache.Stream.FetchedUid` | imap/src/c-client/imap4r1.c:3640-3643 | only the UID of that message changes, and the answer is remembered |
| `MessageCache.Stream.NewUidValidity` | imap/src/c-client/imap4r1.c:4153-4160 | a changed value clears every recorded UID, the same value none |
| `MessageCache.Stream.HandleAll` | imap/src/c-client/imap4r1.c:3601-3643 | a run of responses leaves each non-empty slot i with an element numbered i + 1 and the view the model computes |
| `MessageCache.Stream.ImapMsgno` | imap/src/c-client/imap4r1.c:1886-1925 | on a server below IMAP4 it returns the number it was given, otherwise what the model says, whatever the server sends while it is asked |
| `CacheModel.HeardAgrees` | imap/src/c-client/imap4r1.c:3601-3643 | one response of a consistent server keeps every known UID the server's UID at that position, and the count within the cache |
| `CacheModel.RunAgrees` | imap/src/c-client/imap4r1.c:3601-3643 | so does every run |
| `CacheModel.MsgnoIsRight` | imap/src/c-client/imap4r1.c:1886-1925 | the message named, whatever is heard while the server is asked, has the UID asked for, on the server and now |
| `CacheModel.MsgnoNeverWrong` | imap/src/c-client/imap4r1.c:1886-1925 | it is right in every state and over every run if and only if the UID asked for is not zero |
| `CacheModel.ZeroUidNamesAMessage` | imap/src/c-client/imap4r1.c:1898-1901 | asking for UID 0 names the first message whose UID is not known, when the server's answer makes it search again |
| `CacheModel.MsgnoIsComplete` | imap/src/c-client/imap4r1.c:1898-1901 | with no holes in the cache every known message is found at its place |
| `CacheModel.KnownStays` | imap/src/c-client/imap4r1.c:3601-3643 | a recorded UID stays recorded under every response that neither removes its message nor changes the UID validity |
| `CacheModel.MsgnoFindsFetched` | imap/src/c-client/imap4r1.c:1903-1921 | when the server is asked and one of its responses gives the UID of a message the client knows of, the message is found where it is in the end, unless it leaves the mailbox or the UID validity changes |
| `CacheModel.ExistsIsTaken` | imap/src/c-client/mail.c:2986-3001 | the number an EXISTS gives is taken over up to the maximum whatever was known before, and ignored above it |
| `CacheModel.RunKnowsAll` | imap/src/c-client/imap4r1.c:3601-3643 | over every run whose mailboxes fit, a client that knows of every message goes on knowing of every message |
| `CacheModel.KnowsAllFromExists` | imap/src/c-client/imap4r1.c:3601-3643 | and so it does from the first EXISTS on, whatever it knew before |
| `CacheModel.MsgnoFindsAnswered` | imap/src/c-client/imap4r1.c:1903-1921 | such a client finds every message whose UID the server gives when it is asked, unless it leaves the mailbox or the UID validity changes |
| `QuotedPrintable.RoundTrip` | imap/src/c-client/rfc822.c:1883-2003 | decoding the encoding of any byte string gives it back |
| `QuotedPrintable.RoundTripFrom` | imap/src/c-client/rfc822.c:1883-2003 | the same from any point of a line, spaces not yet marked included |
| `QuotedPrintable.EncodedLinesFit` | imap/src/c-client/rfc822.c:1960-1994 | no output line is longer than 76 characters |
| `QuotedPrintable.EncodedSize` | imap/src/c-client/rfc822.c:1981-1992 | there is at most one soft break for every 25 source bytes |
| `QuotedPrintable.EncodedFits` | imap/src/c-client/rfc822.c:1966-1967 | output and terminator fit the allocation |
| `QuotedPrintable.DecodedSize` | imap/src/c-client/rfc822.c:1883-1890 | decoding never yields more bytes than it was given |
| `QuotedPrintable.Encode8Bit` | imap/src/c-client/rfc822.c:1962-2003 | the encoder's loop writes the specified encoding, which the rows on QuotedText pin down byte by byte, and a terminator within its buffer |
| `QuotedPrintable.DecodeQPrint` | imap/src/c-client/rfc822.c:1883-1951 | the decoder's loop, with its rewinding over trailing spaces, yields the specified text, which the rows on QuotedReading give for any source |
| `QuotedText.EncodedIsFine` | imap/src/c-client/rfc822.c:1962-2000 | at every place of an encoding stands a byte from 32 to 126 or a line break, after an = two digits of 0123456789ABCDEF or a line break, and no space right before a CR |
| `QuotedText.EncodedSpells` | imap/src/c-client/rfc822.c:1962-2000 | without its soft breaks an encoding spells the bytes one by one: line breaks and printable bytes for themselves, all others, = and a space before CR quoted |
| `QuotedText.EncodedBreaksLate` | imap/src/c-client/rfc822.c:1979-1992 | a soft break stands only where fewer than three of the 75 characters were left |
| `QuotedReading.ReadsTrimmed` | imap/src/c-client/rfc822.c:1936-1946 | a text without = is read as it is, but for the spaces directly before a CR or LF |
| `QuotedReading.DropsSpaces` | imap/src/c-client/rfc822.c:1936-1946 | spaces before a hard line break are dropped behind any text whose quotes are whole and that does not end in a space |
| `QuotedReading.ReadsQuote` | imap/src/c-client/rfc822.c:1928-1934 | behind any text whose quotes are whole a quote stands for its byte, and the rest is read on its own |
| `QuotedReading.ReadsSoftBreak` | imap/src/c-client/rfc822.c:1902-1906 | CR LF, CR and LF after an = join two texts that are read each on its own, spaces included |
| `QuotedReading.ReadsByte` | imap/src/c-client/rfc822.c:1936-1946 | any other byte but a space or line end stands for itself |
| `QuotedReading.ReadsBadQuote` | imap/src/c-client/rfc822.c:1906-1926 | an = before a byte that is no digit, line end or NUL stands for itself, and so does that byte |
| `QuotedReading.LosesSecond` | imap/src/c-client/rfc822.c:1906-1926 | when only the second byte is no digit, it is lost |
| `QuotedReading.BadQuoteKeptExactly` | imap/src/c-client/rfc822.c:1906-1926 | of a bad quote nothing is lost if and only if its first byte is no digit |
| `QuotedReading.CaseIsFreeExactly` | imap/src/c-client/rfc822.c:1928-1932 | the case of the digits of a quote does not matter behind a text if and only if every quote begun in the text ends in it |
| `Base64.RoundTrip` | imap/src/c-client/rfc822.c:1737-1873 | decoding the encoding of any byte string gives it back |
| `Base64.StrippedRoundTrip` | imap/src/c-client/imap4r1.c:1246-1250 | so does decoding what is left when all characters not above space are taken out |
| `Base64.StrippedEncoding` | imap/src/c-client/imap4r1.c:1246-1250 | taking those out removes exactly the line breaks |
| `Base64.LengthAsPredicted` | imap/src/c-client/rfc822.c:1840-1842 | the bytes written, line breaks included, are as many as predicted |
| `Base64.EncodeBinary` | imap/src/c-client/rfc822.c:1835-1873 | the encoder writes the specified text; the length test before its fatal exit never fails |
| `Base64Reading.EncodedLines` | imap/src/c-client/rfc822.c:1845-1870 | the encoding is the one without line breaks, cut into lines of 60 characters, the last one shorter |
| `Base64.DecodeBase64` | imap/src/c-client/rfc822.c:1737-1826 | the decoder yields the specified bytes, or NIL, within its buffer; `Base64Reading.DecodedIs` says which for any source |
| `Base64Reading.ClassIs` | imap/src/c-client/rfc822.c:1733-1762 | the table knows exactly the 64 characters at their places, the six blanks and = |
| `Base64Reading.DecodedIs` | imap/src/c-client/rfc822.c:1763-1826 | for every text: digits and blanks alone before the first =, the digits packed four to three bytes, and an = only after two digits of a quantum with another = at once, or after three; anything else is NIL |
| `Base64Reading.BlankIsSkipped` | imap/src/c-client/rfc822.c:1786-1787 | a blank put in before the first = changes nothing |
| `Base64Reading.JunkIsRefused` | imap/src/c-client/rfc822.c:1819-1821 | a character that is neither digit, blank nor = before the first = makes the answer NIL |
| `Base64.DecodeTuplet` | imap/src/c-client/rfc822.c:1767-1785 | four digits give back the three bytes they were made from |
| `Base64.DecodeRemainder` | imap/src/c-client/rfc822.c:1788-1818 | a padded quantum gives back one or two bytes and ends the data, whatever follows |
| `Base64.InstallBits` | imap/src/c-client/rfc822.c:1773-1781 | the bits or-ed into a byte never meet those already there |
| `Base64.StripInPlace` | imap/src/c-client/imap4r1.c:1246-1250 | the stripping loop keeps exactly the characters above space, in order, in place |
| `Newsrc.WrittenDenotes` | imap/src/c-client/newsrc.c:103-135 | among the messages the written list holds exactly the read ones, although its ranges also swallow UIDs no message has; it ascends |
| `Newsrc.NewMessages` | imap/src/c-client/newsrc.c:103-135 | the writer's loop puts that list into the file |
| `NewsrcList.WrittenExactly` | imap/src/c-client/newsrc.c:103-135 | a number is on the written list if and only if it is at least 1, not above the last message, and below the first message or not below a read one that no other message follows up to it |
| `NewsrcList.ListIsShort` | imap/src/c-client/newsrc.c:103-135 | no two ranges of the written list could be one, and none of a single number is written as a range |
| `Newsrc.ReadIsExact` | imap/src/c-client/newsrc.c:259-314 | reading a list into a fresh stream deletes exactly the messages it says are read and leaves over exactly those above it |
| `Newsrc.ReadListText` | imap/src/c-client/newsrc.c:259-295 | the printed list is read back element by element, up to whatever ends it |
| `Newsrc.RoundTrip` | imap/src/c-client/newsrc.c:103-314 | what was written and read back into a fresh stream deletes the same messages |
| `Newsrc.ReportedIsFirst` | imap/src/c-client/newsrc.c:268-317 | the message reported as first unseen is the first one not deleted; none is reported only when all are |
| `Newsrc.NewsStream.NewsRead` | imap/src/c-client/newsrc.c:258-320 | the reader's loops mark what the specification says and count the recent messages |
| `Newsrc.CheckIsExact` | imap/src/c-client/newsrc.c:480-502 | the checker counts a UID by the first element that reaches it |
| `Newsrc.NewsCheckUid` | imap/src/c-client/newsrc.c:480-502 | the checker's loop adds what the specification says to both counts |
| `Newsrc.CheckAgreesWithRead` | imap/src/c-client/newsrc.c:244-502 | summed over the stream the checker counts as recent what the reader finds above the list and as unseen what it leaves undeleted |
| `Newsrc.CheckAgreesExactly` | imap/src/c-client/newsrc.c:488-492 | they agree on every stream if and only if no range of the list runs backwards |
| `Newsrc.JudgeAscending` | imap/src/c-client/newsrc.c:480-502 | on an ascending list the first element that reaches a UID decides membership |
| `Sequences.ScanText` | imap/src/c-client/mail.c:5118-5178 | a printed sequence whose numbers are in range is read back whole |
| `SequenceErrors.AcceptsExactly` | imap/src/c-client/mail.c:5118-5178 | a text is accepted if and only if it is a sequence of numbers and ranges in range with commas between them, one more comma at the end allowed |
| `Sequences.PairsMean` | imap/src/c-client/mail.c:5159-5163 | the pairs read stand for exactly the numbers the sequence denotes |
| `Sequences.SequenceBits.MailSequence` | imap/src/c-client/mail.c:5118-5178 | exactly the messages in the elements read are marked, those of the whole text when there is no error |
| `SequenceText.ParseElem` | imap/src/c-client/mail.c:5123-5157 | one printed element, single, range or star, is read back with the comma after it |
| `Overview.BuildSequence` | imap/src/c-client/imap4r1.c:1358-1382 | the text, read as a message sequence, marks exactly the selected messages with as few ranges as possible; none is made when there are none |
| `Overview.SeparatorFits` | imap/src/c-client/imap4r1.c:1365-1368 | the reserve of 20 characters always holds the next append: the two numbers cannot both have nine digits |
| `Overview.ReserveIsTight` | imap/src/c-client/imap4r1.c:1365-1368 | and it can be needed to the last character |
| `Overview.EndRange` | imap/src/c-client/imap4r1.c:1363-1372 | after each append at least the reserve is left, the buffer growing when it is not |
| `Rewriting.ReformedLength` | imap/src/c-client/imap4r1.c:5458-5490 | whatever the text, the reformed one has the same length, so it fits its allocation |
| `Rewriting.ReformedText` | imap/src/c-client/imap4r1.c:5459-5487 | on a sequence only the ranges that run backwards are turned around |
| `Rewriting.ReformKeepsMeaning` | imap/src/c-client/imap4r1.c:5446-5491 | the same numbers are denoted and every range runs upwards, star included |
| `Rewriting.ReformMarksSame` | imap/src/c-client/imap4r1.c:5446-5491 | read back as a sequence, the reformed text marks exactly what the text marked |
| `Rewriting.ReformSequence` | imap/src/c-client/imap4r1.c:5446-5491 | for an empty mailbox it hands the sequence back; otherwise the pointer loop writes the reformed text, star being the last number or UID, into its allocation |
| `CommandSplit.PiecesAreShort` | imap/src/c-client/imap4r1.c:2941-2964 | no piece is longer than a command line allows |
| `CommandSplit.PiecesAreLong` | imap/src/c-client/imap4r1.c:2941-2964 | no piece but the last is shorter than 970 characters |
| `CommandSplit.PiecesRejoin` | imap/src/c-client/imap4r1.c:2941-2964 | joined with commas the pieces are the sequence again |
| `CommandSplit.ShortElementsFit` | imap/src/c-client/imap4r1.c:2947-2949 | the fatal exit is unreachable when every element is shorter than 30 characters |
| `CommandSplit.PiecesAreSequences` | imap/src/c-client/imap4r1.c:2941-2964 | every piece is a sequence of its own, and together they have the elements of the whole, in order |
| `CommandSplit.FlatDenotes` | imap/src/c-client/imap4r1.c:2941-2964 | so the pieces together denote what the whole does |
| `CommandSplit.SendSequence` | imap/src/c-client/imap4r1.c:2934-2966 | the pieces are sent in order up to a refusal, and the text is as it was |
| `UidSequences.MailMsgno` | imap/src/c-client/mail.c:2112-2122 | the binary search that tests its end points ends, and finds a UID exactly when a message has it |
| `UidSequences.UidBits.MarkRange` | imap/src/c-client/mail.c:3159-3177 | whichever of the two ends are UIDs of messages, exactly the messages in the range are marked |
| `UidSequences.UidBits.MailUidSequence` | imap/src/c-client/mail.c:3123-3187 | exactly the messages whose UID is in an element read are marked |
| `UidSequences.SequenceOfUids` | imap/src/c-client/mail.c:3123-3187 | on a sequence without zero that is what the sequence denotes, star being the last UID |
| `Md5Rounds.Rnd` | imap/src/c-client/auth_md5.c:310-333 | the low 32 bits after a macro on 64-bit words are the step on 32-bit words |
| `Md5Rounds.LowMixed` | imap/src/c-client/auth_md5.c:310-333 | the four mixing expressions, complements included, agree in their low halves |
| `Md5Rounds.LowRotate` | imap/src/c-client/auth_md5.c:310-333 | on a masked word the two shifts are a rotation |
| `Md5Transform.Transform` | imap/src/c-client/auth_md5.c:404-447 | the low halves of the state are transformed as 32-bit words would be, constants and orders being those of RFC 1321 section 3.4 |
| `Md5Transform.OrFour` | imap/src/c-client/auth_md5.c:478-486 | four bytes or-ed together make the little-endian word |
| `Md5.PaddedToBlocks` | imap/src/c-client/auth_md5.c:374-397 | padding makes whole blocks and is as short as possible |
| `Md5.FoldedAppend` | imap/src/c-client/auth_md5.c:355-367 | folding blocks over a concatenation is folding them over the parts |
| `Md5.FoldedEnd` | imap/src/c-client/auth_md5.c:380-392 | the last bytes with their padding take one block, or two when the length does not fit |
| `Md5.CountInBits` | imap/src/c-client/auth_md5.c:377-378 | the two words made of the byte count encode the length in bits if and only if the high half of the count is a multiple of 2 to the 29, so for every length below 2 to the 64 |
| `Md5.CountFails` | imap/src/c-client/auth_md5.c:377-378 | 2 to the 64 bytes is the first length they get wrong |
| `Md5Constants.InitialBytes` | imap/src/c-client/auth_md5.c:340-348 | the initial words are the bytes 01 23 45 and so on to 10 of RFC 1321 section 3.3 |
| `Md5Constants.SinesBegin` | imap/src/c-client/auth_md5.c:404-447 | the first constant is the Taylor series of sin 1 times 2 to the 32, and the second follows from it |
| `Md5Constants.SinesFollow` | imap/src/c-client/auth_md5.c:404-447 | all constants obey the addition theorem of the sine, but for what is cut off |
| `Md5Context.Context.Update` | imap/src/c-client/auth_md5.c:355-369 | the context holds the digest state of everything given so far, and its two words count it modulo 2 to the 128, carry included |
| `Md5Context.Context.Final` | imap/src/c-client/auth_md5.c:374-397 | the digest is that of padding, count words and blocks over everything given, so of the message whenever the count words are right; the context is erased |
| `Md5Context.DigestOfPieces` | imap/src/c-client/auth_md5.c:340-397 | however a message is cut into updates, the digest is that of the whole message, under the same condition |
| `Search.Search` | imap/src/c-client/misc.c:204-244 | true exactly when the pattern occurs in the non-empty base up to ASCII case; the base is never read outside its bounds |
| `Search.SkipIsSafe` | imap/src/c-client/misc.c:238-241 | the skip never jumps over a match |
| `Search.CompareIs` | imap/src/c-client/misc.c:239 | the masked comparison says that two characters differ at most in ASCII case |
| `Search.MakeMask` | imap/src/c-client/misc.c:230-236 | the mask marks exactly the characters of the pattern, letters in both cases |
| `Search.EmptyBase` | imap/src/c-client/misc.c:227-229 | in an empty base only the empty pattern occurs, and it is not found |
| `Calendar.LongDaysCount` | imap/src/c-client/mail.c:4460-4487 | the closed form counts the days year by year and month by month |
| `Calendar.LongDateIsInstant` | imap/src/c-client/mail.c:4488-4498 | the result is the instant in universal time, or zero when that lies before 1970; second 60 is that of the next minute |
| `Calendar.WeekdayFollowsCount` | imap/src/c-client/mail.c:2664-2689 | the weekday of the other formula is the day count plus four modulo seven |
| `Calendar.ShortDateOrders` | imap/src/c-client/mail.c:3930-3934 | with the year in its seven bits, short dates order valid dates as the day count does, and tell them apart |
| `Calendar.ShortDateWraps` | imap/src/c-client/mail.c:3930-3934 | a year beyond its field gets the short date of 128 years before |
| `Calendar.ShortDateOrdersExactly` | imap/src/c-client/mail.c:3930-3934 | short dates order all valid dates of the first n years as the day count does if and only if n is at most 128 |
| `Calendar.ShortDateFails` | imap/src/imapd/imapd.c:2047 | the first of January 2000 comes before that of 2100 but has the later short date |

## Left out

- Network, TLS, authentication exchanges and file I/O: received responses, file text and a server's replies are
  sequences or parameters. Logging and notification calls are dropped.
- Memory management: index tables and fresh arrays take the place of allocated structures, and freed containers and
  nodes simply stay unused. Only the buffer sizes named above are claims.
- Stripping subjects, parsing dates and reference headers, and choosing the searched messages: subject, `refwd`,
  date and reference list of each message are given, and the generated fallback names are taken to collide with
  nothing.
- ThreadSort.Qsort: an insertion sort stands for `qsort`, and only a sorted permutation is promised of it, because
  the library function is not stable and not part of the repository.
- Prune.PruneDummy: has no elder-sister argument, because every caller of mail_thread_prune_dummy passes none.
- HashTable.HashIndex: the multiplication wraps at 64 bits and characters count by their code, because the width of
  `unsigned long` and the sign of `char` depend on the machine; nothing else depends on the index.
- SubjectMerge.MergeAllFacts: one thread per subject is claimed after the merge; of the finished tree it is claimed
  exactly when no two threads have possible speakers of one subject (see above).
- CacheModel.RunAgrees: says nothing about the count of recent messages, because an expunge leaves it alone.
- QuotedPrintable.Encoded: `iscntrl` is that of the C locale, and the byte the encoder looks at past the end of its
  source is a parameter.
- Newsrc.NewsStream.NewsRead: starts behind the name of the group; finding the group, newline conventions and
  rewriting the file are not modelled.
- SequenceText.ParseOne: numbers are plain digit strings of any length; the signs, blanks and overflow of `strtoul`
  are not modelled, nor is the overflow of the digit loops of newsrc.c.
- Overview.BuildSequence: yields the text of the fetch; the fetch itself and the overview callbacks are not modelled.
- Md5Context.Context.Update: `unsigned long` has 64 bits; a machine with 32-bit words, which needs no masking, is not
  modelled.
- Calendar.CdateWeekday: the text around the weekday is not modelled; the Orthodox, Julian and year-4000 variants
  are compiled out.
- Calendar.ShortDateOrdersExactly: years are offsets from 1970; an earlier year, which imapd.c lets through with a
  wrapped offset, is not modelled.
- Header and address parsing, MIME multipart scanning, charset tables, the NNTP and POP3 drivers, and the
  application around the library.
