/** The access rules the HTTP controllers apply after looking a conversation
    up: who may manage it, who may view it, who may read its messages. */
module Access {
  import opened Common
  import opened Entities
  import opened Database
  import opened Conversations

  /** The three checks found in the controllers, from strictest to loosest. */
  datatype Level =
    | Manage  // owner only: update, delete, share, revoke; edit or delete a message
    | View    // owner or public: open a conversation, post a message
    | Read    // owner, public or shared: list, search or open messages

  /** Whether `userId` passes the check at `level` for conversation `c`.
      A share link counts whenever it is truthy, expired or not. */
  predicate Allows(level: Level, c: Conversation, userId: string): (allowed: bool)
    ensures c.userId == userId ==> allowed
    ensures allowed <==> c.userId == userId || (level != Manage && c.isPublic) || (level == Read && HasShareLink(c))
  {
    match level
    case Manage => c.userId == userId
    case View => c.userId == userId || c.isPublic
    case Read => c.userId == userId || c.isPublic || HasShareLink(c)
  }

  /** The lookup every guarded endpoint starts with: NotFound when no
      conversation has this id, BadRequest when the requester fails the
      check, the conversation otherwise. */
  function Authorize(cs: seq<Conversation>, id: string, userId: string, level: Level): (r: Result<Conversation>)
    ensures r == Err(NotFound) <==> !ConversationExists(cs, id)
    ensures r.Ok? ==> r.value in cs && r.value.id == id && Allows(level, r.value, userId)
    ensures r == Err(BadRequest) ==> exists c :: c in cs && c.id == id && !Allows(level, c, userId)
    ensures r.Ok? || r.error == NotFound || r.error == BadRequest
  {
    match FindOne(cs, id)
    case Err(e) => Err(e)
    case Ok(c) => if Allows(level, c, userId) then Ok(c) else Err(BadRequest)
  }

  /** Each level admits everyone the stricter one admits. */
  lemma LevelsNest(c: Conversation, userId: string)
    ensures Allows(Manage, c, userId) ==> Allows(View, c, userId)
    ensures Allows(View, c, userId) ==> Allows(Read, c, userId)
  {
  }

  /** Passing a strict check implies passing a looser one on the same id. */
  lemma AuthorizeMonotone(cs: seq<Conversation>, id: string, userId: string)
    ensures Authorize(cs, id, userId, Manage).Ok? ==> Authorize(cs, id, userId, View) == Authorize(cs, id, userId, Manage)
    ensures Authorize(cs, id, userId, View).Ok? ==> Authorize(cs, id, userId, Read) == Authorize(cs, id, userId, View)
  {
    if FindOne(cs, id).Ok? {
      LevelsNest(FindOne(cs, id).value, userId);
    }
  }

  /** With unique ids, the check on a stored conversation decides alone:
      the conversation when the requester passes the level, BadRequest when
      not. */
  lemma AuthorizeDecides(cs: seq<Conversation>, id: string, userId: string, level: Level)
    requires forall i, j :: 0 <= i < j < |cs| ==> cs[i].id != cs[j].id
    ensures forall c :: c in cs && c.id == id ==>
      Authorize(cs, id, userId, level) == if Allows(level, c, userId) then Ok(c) else Err(BadRequest)
  {
    forall c | c in cs && c.id == id
      ensures Authorize(cs, id, userId, level) == if Allows(level, c, userId) then Ok(c) else Err(BadRequest)
    {
      var r := FindOne(cs, id);
      var k :| 0 <= k < |cs| && cs[k] == c;
      var i :| 0 <= i < |cs| && cs[i] == r.value;
      assert cs[i].id == cs[k].id;
    }
  }

  /** With unique ids, the owner of the conversation passes every check,
      and anyone else fails the owner check. */
  lemma OwnerDecides(cs: seq<Conversation>, c: Conversation, userId: string, level: Level)
    requires c in cs
    requires forall i, j :: 0 <= i < j < |cs| ==> cs[i].id != cs[j].id
    ensures c.userId == userId ==> Authorize(cs, c.id, userId, level) == Ok(c)
    ensures c.userId != userId ==> Authorize(cs, c.id, userId, Manage) == Err(BadRequest)
  {
    AuthorizeDecides(cs, c.id, userId, level);
    AuthorizeDecides(cs, c.id, userId, Manage);
  }

  /** The message endpoints ignore expiry: a shared link that has expired
      is refused by the share-link route, yet any user may still read the
      conversation's messages. */
  lemma ExpiredShareStillReadable(cs: seq<Conversation>, c: Conversation, userId: string, now: nat)
    requires c in cs && LinksUnique(cs) && HasShareLink(c) && Expired(c, now)
    requires forall i, j :: 0 <= i < j < |cs| ==> cs[i].id != cs[j].id
    ensures FindByShareLink(cs, c.shareLink.value, now) == Err(BadRequest)
    ensures Authorize(cs, c.id, userId, Read) == Ok(c)
  {
    ShareLinkResolution(cs, c, now);
    AuthorizeDecides(cs, c.id, userId, Read);
  }
}
