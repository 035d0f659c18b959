/** The persisted records: one datatype per table row. Timestamps are ticks
    of the store's monotone clock; only their order matters to the core. */
module Entities {
  import opened Common

  /** A row of `messages`. `isFromAi` defaults to false on creation. */
  datatype Message = Message(
    id: string,
    conversationId: string,
    content: string,
    isFromAi: bool,
    createdAt: nat)

  /** A row of `conversations`; `userId` is the owner. */
  datatype Conversation = Conversation(
    id: string,
    name: string,
    userId: string,
    isPublic: bool,
    shareLink: Option<string>,
    shareExpiresAt: Option<nat>,
    createdAt: nat,
    updatedAt: nat)

  /** A row of `users`; `password` holds the bcrypt hash. */
  datatype User = User(
    id: string,
    email: string,
    pseudo: string,
    password: string,
    createdAt: nat)

  /** The conversation has a share link in the JavaScript sense. */
  predicate HasShareLink(c: Conversation)
  {
    Truthy(c.shareLink)
  }

  /** Rows in strictly increasing creation order, i.e. sorted by
      `createdAt` ascending with no ties. */
  ghost predicate MessagesChronological(ms: seq<Message>)
  {
    forall i, j :: 0 <= i < j < |ms| ==> ms[i].createdAt < ms[j].createdAt
  }

  ghost predicate ConversationsChronological(cs: seq<Conversation>)
  {
    forall i, j :: 0 <= i < j < |cs| ==> cs[i].createdAt < cs[j].createdAt
  }

  /** Keeping a subset of chronological rows, in order, keeps them chronological. */
  lemma {:induction false} FilterKeepsMessagesChronological(ms: seq<Message>, p: Message -> bool)
    ensures MessagesChronological(ms) ==> MessagesChronological(Filter(ms, p))
  {
    if ms != [] && MessagesChronological(ms) {
      FilterKeepsMessagesChronological(ms[1..], p);
      var rest := Filter(ms[1..], p);
      if p(ms[0]) {
        forall j | 0 < j < |[ms[0]] + rest|
          ensures ms[0].createdAt < ([ms[0]] + rest)[j].createdAt
        {
          assert ([ms[0]] + rest)[j] == rest[j - 1];
          assert rest[j - 1] in ms[1..];
        }
      }
    }
  }

  lemma {:induction false} FilterKeepsConversationsChronological(cs: seq<Conversation>, p: Conversation -> bool)
    ensures ConversationsChronological(cs) ==> ConversationsChronological(Filter(cs, p))
  {
    if cs != [] && ConversationsChronological(cs) {
      FilterKeepsConversationsChronological(cs[1..], p);
      var rest := Filter(cs[1..], p);
      if p(cs[0]) {
        forall j | 0 < j < |[cs[0]] + rest|
          ensures cs[0].createdAt < ([cs[0]] + rest)[j].createdAt
        {
          assert ([cs[0]] + rest)[j] == rest[j - 1];
          assert rest[j - 1] in cs[1..];
        }
      }
    }
  }
}
