/** What the threader knows of a message: the fields of its sort cache entry. */
module Messages {
  import opened Options

  datatype Message = Message(
    messageId: Option<string>,   // Message-ID, if the message has one
    fallback: string,            // the generated mailbox.validity.uid@host name
    references: seq<string>,     // message IDs from References or In-Reply-To
    subject: string,             // stripped subject
    refwd: bool,                 // the subject said it is a reply or forward
    date: nat,
    number: nat)                 // message number or UID, as the caller asked for

  /** The generated names collide neither with each other nor with a real message ID. */
  ghost predicate FallbacksFresh(msgs: seq<Message>) {
    && (forall i, j :: 0 <= i < j < |msgs| ==> msgs[i].fallback != msgs[j].fallback)
    && (forall i, j :: 0 <= i < |msgs| && 0 <= j < |msgs| && msgs[j].messageId.Some?
                       ==> msgs[i].fallback != msgs[j].messageId.value)
  }
}
