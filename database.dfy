/** The two repositories the conversation and message services share, as one
    in-memory store. Rows are kept in insertion order; `clock` is the
    monotone source of `createdAt`/`updatedAt`, and the primary-key generator
    is the oracle `mint`: the row inserted at tick t gets id
    `mint(t)`. */
module Database {
  import opened Common
  import opened Entities

  /** The primary-key generator: distinct ticks get distinct, non-empty
      keys (a UUID is never the empty string). */
  ghost predicate KeyGenerator(f: nat -> string)
  {
    && (forall a, b :: f(a) == f(b) ==> a == b)
    && (forall a :: f(a) != "")
  }

  /** Index of the row with the given id (the table's `findOne({ where: { id } })`). */
  function IndexOfConversation(cs: seq<Conversation>, id: string): (r: Option<nat>)
    ensures r.Some? ==> r.value < |cs| && cs[r.value].id == id
    ensures r.None? <==> forall c :: c in cs ==> c.id != id
  {
    if cs == [] then None
    else if cs[0].id == id then Some(0)
    else match IndexOfConversation(cs[1..], id)
      case None => None
      case Some(k) => Some(k + 1)
  }

  function IndexOfMessage(ms: seq<Message>, id: string): (r: Option<nat>)
    ensures r.Some? ==> r.value < |ms| && ms[r.value].id == id
    ensures r.None? <==> forall m :: m in ms ==> m.id != id
  {
    if ms == [] then None
    else if ms[0].id == id then Some(0)
    else match IndexOfMessage(ms[1..], id)
      case None => None
      case Some(k) => Some(k + 1)
  }

  predicate ConversationExists(cs: seq<Conversation>, id: string)
  {
    exists c :: c in cs && c.id == id
  }

  /** The table invariant: rows are chronological, stamped before `clock`
      and keyed by `mint` of their creation tick; non-null share links are
      unique (the column's `unique` constraint); every message belongs to a
      stored conversation (the foreign key, with `ON DELETE CASCADE`). */
  ghost predicate Consistent(cs: seq<Conversation>, ms: seq<Message>, clock: nat, mint: nat -> string)
  {
    && KeyGenerator(mint)
    && ConversationsChronological(cs)
    && MessagesChronological(ms)
    && (forall c :: c in cs ==> c.createdAt <= c.updatedAt < clock && c.id == mint(c.createdAt))
    && (forall m :: m in ms ==> m.createdAt < clock && m.id == mint(m.createdAt))
    && LinksUnique(cs)
    && (forall m :: m in ms ==> ConversationExists(cs, m.conversationId))
  }

  ghost predicate LinksUnique(cs: seq<Conversation>)
  {
    forall i, j :: (0 <= i < |cs| && 0 <= j < |cs| && i != j && cs[i].shareLink.Some?)
      ==> cs[i].shareLink != cs[j].shareLink
  }

  /** Some stored conversation already holds this share link. */
  predicate LinkInUse(cs: seq<Conversation>, token: string)
  {
    exists c :: c in cs && c.shareLink == Some(token)
  }

  /** Primary keys are unique in both tables. */
  lemma IdsUnique(cs: seq<Conversation>, ms: seq<Message>, clock: nat, mint: nat -> string)
    requires Consistent(cs, ms, clock, mint)
    ensures forall i, j :: 0 <= i < j < |cs| ==> cs[i].id != cs[j].id
    ensures forall i, j :: 0 <= i < j < |ms| ==> ms[i].id != ms[j].id
  {
    forall i, j | 0 <= i < j < |cs|
      ensures cs[i].id != cs[j].id
    {
      assert cs[i] in cs && cs[j] in cs;
    }
    forall i, j | 0 <= i < j < |ms|
      ensures ms[i].id != ms[j].id
    {
      assert ms[i] in ms && ms[j] in ms;
    }
  }

  /** Inserting a conversation stamped with the current tick keeps the invariant. */
  lemma InsertConversationConsistent(cs: seq<Conversation>, ms: seq<Message>, clock: nat, mint: nat -> string, c: Conversation)
    requires Consistent(cs, ms, clock, mint)
    requires c.createdAt == c.updatedAt == clock && c.id == mint(clock) && c.shareLink.None?
    ensures Consistent(cs + [c], ms, clock + 1, mint)
  {
    var cs' := cs + [c];
    forall m | m in ms
      ensures ConversationExists(cs', m.conversationId)
    {
      var w :| w in cs && w.id == m.conversationId;
      assert w in cs';
    }
    assert LinksUnique(cs') by {
      forall i, j | 0 <= i < |cs'| && 0 <= j < |cs'| && i != j && cs'[i].shareLink.Some?
        ensures cs'[i].shareLink != cs'[j].shareLink
      {
        if i < |cs| && j < |cs| {
          assert cs'[i] == cs[i] && cs'[j] == cs[j];
        }
      }
    }
  }

  /** Replacing a conversation row by one with the same key, creation tick
      and a share link no other row holds keeps the invariant. */
  lemma ReplaceConversationConsistent(cs: seq<Conversation>, ms: seq<Message>, clock: nat, mint: nat -> string,
                                      i: nat, c: Conversation, clock': nat)
    requires Consistent(cs, ms, clock, mint)
    requires i < |cs| && c.id == cs[i].id && c.createdAt == cs[i].createdAt
    requires clock <= clock' && c.createdAt <= c.updatedAt < clock'
    requires c.shareLink.Some? ==> forall j :: 0 <= j < |cs| && j != i ==> cs[j].shareLink != c.shareLink
    ensures Consistent(cs[i := c], ms, clock', mint)
  {
    var cs' := cs[i := c];
    forall m | m in ms
      ensures ConversationExists(cs', m.conversationId)
    {
      var w :| w in cs && w.id == m.conversationId;
      var k :| 0 <= k < |cs| && cs[k] == w;
      assert cs'[k].id == w.id;
      assert cs'[k] in cs';
    }
    forall x | x in cs'
      ensures x.createdAt <= x.updatedAt < clock' && x.id == mint(x.createdAt)
    {
      var k :| 0 <= k < |cs'| && cs'[k] == x;
      if k != i {
        assert cs[k] in cs;
      }
    }
    assert ConversationsChronological(cs') by {
      forall a, b | 0 <= a < b < |cs'|
        ensures cs'[a].createdAt < cs'[b].createdAt
      {
      }
    }
  }

  /** Dropping one conversation row keeps the rows that remain ordered and
      their links unique. */
  lemma DropConversationRow(cs: seq<Conversation>, i: nat)
    requires i < |cs|
    requires ConversationsChronological(cs) && LinksUnique(cs)
    ensures var cs' := cs[..i] + cs[i + 1..];
      && (forall k :: 0 <= k < |cs'| ==> cs'[k] == cs[if k < i then k else k + 1])
      && (forall x :: x in cs' ==> x in cs)
      && ConversationsChronological(cs') && LinksUnique(cs')
  {
    var cs' := cs[..i] + cs[i + 1..];
    assert forall k :: 0 <= k < |cs'| ==> cs'[k] == cs[if k < i then k else k + 1];
  }

  /** Deleting a conversation and, by cascade, its messages keeps the invariant. */
  lemma RemoveConversationConsistent(cs: seq<Conversation>, ms: seq<Message>, clock: nat, mint: nat -> string, i: nat)
    requires Consistent(cs, ms, clock, mint)
    requires i < |cs|
    ensures Consistent(cs[..i] + cs[i + 1..], Filter(ms, (m: Message) => m.conversationId != cs[i].id), clock, mint)
  {
    var cs' := cs[..i] + cs[i + 1..];
    var id := cs[i].id;
    var ms' := Filter(ms, (m: Message) => m.conversationId != id);
    IdsUnique(cs, ms, clock, mint);
    FilterKeepsMessagesChronological(ms, (m: Message) => m.conversationId != id);
    DropConversationRow(cs, i);
    forall m | m in ms'
      ensures ConversationExists(cs', m.conversationId)
    {
      var w :| w in cs && w.id == m.conversationId;
      var k :| 0 <= k < |cs| && cs[k] == w;
      assert k != i;
      var k' := if k < i then k else k - 1;
      assert cs'[k'] == w;
    }
  }

  /** Appending a message stamped with the current tick to a stored
      conversation keeps the invariant. */
  lemma AppendMessageConsistent(cs: seq<Conversation>, ms: seq<Message>, clock: nat, mint: nat -> string, m: Message)
    requires Consistent(cs, ms, clock, mint)
    requires m.createdAt == clock && m.id == mint(clock) && ConversationExists(cs, m.conversationId)
    ensures Consistent(cs, ms + [m], clock + 1, mint)
  {
    var ms' := ms + [m];
    assert MessagesChronological(ms') by {
      forall a, b | 0 <= a < b < |ms'|
        ensures ms'[a].createdAt < ms'[b].createdAt
      {
        assert ms'[a] in ms;
      }
    }
  }

  /** Rewriting the content of a stored message keeps the invariant. */
  lemma RewriteMessageConsistent(cs: seq<Conversation>, ms: seq<Message>, clock: nat, mint: nat -> string,
                                 i: nat, content: string)
    requires Consistent(cs, ms, clock, mint)
    requires i < |ms|
    ensures Consistent(cs, ms[i := ms[i].(content := content)], clock, mint)
  {
    var ms' := ms[i := ms[i].(content := content)];
    forall x | x in ms'
      ensures x.createdAt < clock && x.id == mint(x.createdAt) && ConversationExists(cs, x.conversationId)
    {
      var k :| 0 <= k < |ms'| && ms'[k] == x;
      assert ms[k] in ms;
    }
  }

  /** Deleting one message keeps the invariant. */
  lemma RemoveMessageConsistent(cs: seq<Conversation>, ms: seq<Message>, clock: nat, mint: nat -> string, i: nat)
    requires Consistent(cs, ms, clock, mint)
    requires i < |ms|
    ensures Consistent(cs, ms[..i] + ms[i + 1..], clock, mint)
  {
    var ms' := ms[..i] + ms[i + 1..];
    assert forall k :: 0 <= k < |ms'| ==> ms'[k] == (if k < i then ms[k] else ms[k + 1]);
    forall x | x in ms'
      ensures x in ms
    {
      var k :| 0 <= k < |ms'| && ms'[k] == x;
    }
    assert MessagesChronological(ms') by {
      forall a, b | 0 <= a < b < |ms'|
        ensures ms'[a].createdAt < ms'[b].createdAt
      {
      }
    }
  }

  class Store {
    var conversations: seq<Conversation>
    var messages: seq<Message>
    var clock: nat
    const mint: nat -> string

    ghost predicate Valid()
      reads this
    {
      Consistent(conversations, messages, clock, mint)
    }

    constructor (mint: nat -> string)
      requires KeyGenerator(mint)
      ensures Valid() && this.mint == mint
      ensures conversations == [] && messages == [] && clock == 0
    {
      this.mint := mint;
      conversations := [];
      messages := [];
      clock := 0;
    }
  }
}
