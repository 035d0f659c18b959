/** The `/messages` endpoints: each route looks up the conversation concerned,
    applies its access check and, when the check passes, delegates to the
    message service. A refused request changes nothing and never reaches the
    message service. */
module MessageApi {
  import opened Common
  import opened Entities
  import opened Database
  import opened Access
  import opened Messages
  import opened JsValues

  /** The `regenerateAi` query parameter counts only when it is exactly the
      boolean true. */
  function RegenerateFlag(v: JsValue): (regenerate: bool)
    ensures regenerate <==> IsTrue(v)
    ensures v.JsString? ==> !regenerate
  {
    v == JsBool(true)
  }

  /** The conversation of message `id`, checked at `level`: NotFound for an
      unknown message or conversation, BadRequest when the check fails. */
  function AuthorizeMessage(cs: seq<Conversation>, ms: seq<Message>, id: string, userId: string, level: Level): (r: Result<Message>)
    ensures r.Ok? ==> r.value in ms && r.value.id == id
    ensures r.Ok? ==> exists c :: c in cs && c.id == r.value.conversationId && Allows(level, c, userId)
    ensures (forall m :: m in ms ==> m.id != id) ==> r == Err(NotFound)
    ensures r == Err(NotFound) ==>
      (forall m :: m in ms ==> m.id != id) || exists m :: m in ms && m.id == id && !ConversationExists(cs, m.conversationId)
    ensures r == Err(BadRequest) ==> exists m, c ::
      m in ms && m.id == id && c in cs && c.id == m.conversationId && !Allows(level, c, userId)
    ensures r.Ok? || r.error == NotFound || r.error == BadRequest
  {
    match Messages.FindOne(ms, id)
    case Err(e) => Err(e)
    case Ok(m) =>
      match Authorize(cs, m.conversationId, userId, level)
      case Err(e) => Err(e)
      case Ok(_) => Ok(m)
  }

  /** With unique ids, the check on a stored message decides alone: the
      message when the requester passes the level on its conversation,
      BadRequest when not. */
  lemma AuthorizeMessageDecides(cs: seq<Conversation>, ms: seq<Message>, id: string, userId: string, level: Level)
    requires forall i, j :: 0 <= i < j < |cs| ==> cs[i].id != cs[j].id
    requires forall i, j :: 0 <= i < j < |ms| ==> ms[i].id != ms[j].id
    ensures forall m, c :: m in ms && m.id == id && c in cs && c.id == m.conversationId ==>
      AuthorizeMessage(cs, ms, id, userId, level) == if Allows(level, c, userId) then Ok(m) else Err(BadRequest)
  {
    forall m, c | m in ms && m.id == id && c in cs && c.id == m.conversationId
      ensures AuthorizeMessage(cs, ms, id, userId, level) == if Allows(level, c, userId) then Ok(m) else Err(BadRequest)
    {
      var found := Messages.FindOne(ms, id).value;
      var k :| 0 <= k < |ms| && ms[k] == m;
      var i :| 0 <= i < |ms| && ms[i] == found;
      assert ms[i].id == ms[k].id;
      AuthorizeDecides(cs, m.conversationId, userId, level);
    }
  }

  /** Reading a message in a consistent store: NotFound exactly when no
      message has the id; otherwise the owner, a public conversation or a
      share link decide between the message and BadRequest. */
  lemma ReadDecides(cs: seq<Conversation>, ms: seq<Message>, clock: nat, mint: nat -> string, id: string, userId: string)
    requires Consistent(cs, ms, clock, mint)
    ensures AuthorizeMessage(cs, ms, id, userId, Read) == Err(NotFound) <==> forall m :: m in ms ==> m.id != id
    ensures forall m, c :: m in ms && m.id == id && c in cs && c.id == m.conversationId ==>
      AuthorizeMessage(cs, ms, id, userId, Read) ==
        if c.userId == userId || c.isPublic || HasShareLink(c) then Ok(m) else Err(BadRequest)
    ensures var r := AuthorizeMessage(cs, ms, id, userId, Read);
      r.Ok? ==> exists c :: c in cs && c.id == r.value.conversationId && (c.userId == userId || c.isPublic || HasShareLink(c))
    ensures AuthorizeMessage(cs, ms, id, userId, Read) == Err(BadRequest) ==> exists m, c ::
      m in ms && m.id == id && c in cs && c.id == m.conversationId && !(c.userId == userId || c.isPublic || HasShareLink(c))
  {
    IdsUnique(cs, ms, clock, mint);
    AuthorizeMessageDecides(cs, ms, id, userId, Read);
  }

  /** The owner of a conversation may read and edit every message of it. */
  lemma OwnerMayEditOwnMessages(cs: seq<Conversation>, ms: seq<Message>, m: Message, c: Conversation)
    requires c in cs && m in ms && m.conversationId == c.id
    requires forall i, j :: 0 <= i < j < |cs| ==> cs[i].id != cs[j].id
    requires forall i, j :: 0 <= i < j < |ms| ==> ms[i].id != ms[j].id
    ensures AuthorizeMessage(cs, ms, m.id, c.userId, Manage) == Ok(m)
    ensures AuthorizeMessage(cs, ms, m.id, c.userId, Read) == Ok(m)
  {
    AuthorizeMessageDecides(cs, ms, m.id, c.userId, Manage);
    AuthorizeMessageDecides(cs, ms, m.id, c.userId, Read);
  }

  /** A public conversation lets anyone post; a share link alone does not. */
  lemma ShareLinkDoesNotGrantPosting(c: Conversation, userId: string)
    requires c.userId != userId && !c.isPublic && HasShareLink(c)
    ensures Allows(Read, c, userId) && !Allows(View, c, userId)
  {
  }

  class MessageController {
    const service: MessageService
    const conversations: Conversations.ConversationService

    constructor (service: MessageService, conversations: Conversations.ConversationService)
      requires service.db == conversations.db
      ensures this.service == service && this.conversations == conversations
    {
      this.service := service;
      this.conversations := conversations;
    }

    /** `POST /messages`: the owner, or anyone when the conversation is public. */
    method Create(userId: string, dto: CreateMessageDto, ai: AiAdapter) returns (r: Result<Message>)
      requires service.db == conversations.db && service.db.Valid()
      modifies service.db
      ensures service.db.Valid()
      ensures Authorize(old(service.db.conversations), dto.conversationId, userId, View).Err? ==>
        r == Err(Authorize(old(service.db.conversations), dto.conversationId, userId, View).error) && unchanged(service.db)
      ensures Authorize(old(service.db.conversations), dto.conversationId, userId, View).Ok? ==>
        && service.db.conversations == old(service.db.conversations)
        && (r, service.db.messages) == Created(old(service.db.messages), old(service.db.clock), service.db.mint, dto, ai)
    {
      var allowed := Authorize(conversations.db.conversations, dto.conversationId, userId, View);
      if allowed.Err? {
        return Err(allowed.error);
      }
      assert ConversationExists(service.db.conversations, dto.conversationId);
      r := service.Create(dto, ai);
    }

    /** `GET /messages?conversationId=`: owner, public or shared; the
        conversation's messages, oldest first. */
    function FindAll(userId: string, conversationId: string): (r: Result<seq<Message>>)
      requires service.db.Valid()
      reads service.db
      ensures r.Err? <==> Authorize(service.db.conversations, conversationId, userId, Read).Err?
      ensures r.Err? ==> r.error == Authorize(service.db.conversations, conversationId, userId, Read).error
      ensures r.Ok? ==> MessagesChronological(r.value)
      ensures r.Ok? ==> forall m :: m in r.value <==> m in service.db.messages && m.conversationId == conversationId
    {
      match Authorize(service.db.conversations, conversationId, userId, Read)
      case Err(e) => Err(e)
      case Ok(c) =>
        assert c.id == service.db.mint(c.createdAt) != "";
        Ok(Messages.FindAll(service.db.messages, Some(conversationId)))
    }

    /** `GET /messages/search`: owner, public or shared; the matching
        messages of the conversation, oldest first. */
    function Search(userId: string, keyword: string, conversationId: string): (r: Result<seq<Message>>)
      requires service.db.Valid()
      reads service.db
      ensures r.Err? <==> Authorize(service.db.conversations, conversationId, userId, Read).Err?
      ensures r.Err? ==> r.error == Authorize(service.db.conversations, conversationId, userId, Read).error
      ensures r.Ok? ==> MessagesChronological(r.value)
      ensures r.Ok? ==> forall m :: m in r.value <==>
        m in service.db.messages && m.conversationId == conversationId && ContainsIgnoreCase(m.content, keyword)
    {
      match Authorize(service.db.conversations, conversationId, userId, Read)
      case Err(e) => Err(e)
      case Ok(_) => Ok(SearchInConversation(service.db.messages, keyword, conversationId))
    }

    /** `GET /messages/:id`: NotFound for an unknown message; the message
        when its conversation is owned by the requester, public or shared;
        BadRequest otherwise. */
    function FindOne(userId: string, id: string): (r: Result<Message>)
      requires service.db.Valid()
      reads service.db
      ensures r == Err(NotFound) <==> forall m :: m in service.db.messages ==> m.id != id
      ensures forall m, c ::
        m in service.db.messages && m.id == id && c in service.db.conversations && c.id == m.conversationId ==>
        r == if c.userId == userId || c.isPublic || HasShareLink(c) then Ok(m) else Err(BadRequest)
      ensures r.Ok? ==> r.value in service.db.messages && r.value.id == id
      ensures r.Ok? ==> exists c ::
        c in service.db.conversations && c.id == r.value.conversationId
        && (c.userId == userId || c.isPublic || HasShareLink(c))
      ensures r == Err(BadRequest) ==> exists m, c ::
        m in service.db.messages && m.id == id && c in service.db.conversations && c.id == m.conversationId
        && !(c.userId == userId || c.isPublic || HasShareLink(c))
      ensures r.Ok? || r.error == NotFound || r.error == BadRequest
    {
      ReadDecides(service.db.conversations, service.db.messages, service.db.clock, service.db.mint, id, userId);
      AuthorizeMessage(service.db.conversations, service.db.messages, id, userId, Read)
    }

    /** `PATCH /messages/:id`: owner only, even for a public conversation. */
    method Update(userId: string, id: string, content: string, regenerateAi: JsValue, ai: AiAdapter) returns (r: Result<Message>)
      requires service.db.Valid()
      modifies service.db
      ensures service.db.Valid()
      ensures service.db.conversations == old(service.db.conversations) && service.db.clock == old(service.db.clock)
      ensures |service.db.messages| == |old(service.db.messages)|
      ensures var gate := AuthorizeMessage(old(service.db.conversations), old(service.db.messages), id, userId, Manage);
        gate.Err? ==> r == Err(gate.error) && unchanged(service.db)
      ensures var gate := AuthorizeMessage(old(service.db.conversations), old(service.db.messages), id, userId, Manage);
        gate.Ok? ==>
        var i := IndexOfMessage(old(service.db.messages), id).value;
        var target := old(service.db.messages)[i];
        var edited := target.(content := content);
        var after := old(service.db.messages)[i := edited];
        if target.isFromAi then
          r == Err(BadRequest) && service.db.messages == old(service.db.messages)
        else if !RegenerateFlag(regenerateAi) then
          r == Ok(edited) && service.db.messages == after
        else
          match NextAiReply(after, i)
          case None => r == Ok(edited) && service.db.messages == after
          case Some(j) =>
            match ai(content, History(after, target.conversationId, Some(id)))
            case None => r == Err(AdapterFailure) && service.db.messages == after
            case Some(reply) => r == Ok(edited) && service.db.messages == after[j := after[j].(content := reply)]
    {
      var gate := AuthorizeMessage(service.db.conversations, service.db.messages, id, userId, Manage);
      if gate.Err? {
        return Err(gate.error);
      }
      r := service.Update(id, content, RegenerateFlag(regenerateAi), ai);
    }

    /** `DELETE /messages/:id`: owner only. */
    method Remove(userId: string, id: string) returns (r: Result<()>)
      requires service.db.Valid()
      modifies service.db
      ensures service.db.Valid()
      ensures service.db.conversations == old(service.db.conversations) && service.db.clock == old(service.db.clock)
      ensures var gate := AuthorizeMessage(old(service.db.conversations), old(service.db.messages), id, userId, Manage);
        gate.Err? ==> r == Err(gate.error) && unchanged(service.db)
      ensures var gate := AuthorizeMessage(old(service.db.conversations), old(service.db.messages), id, userId, Manage);
        gate.Ok? ==>
        var i := IndexOfMessage(old(service.db.messages), id).value;
        r == Ok(()) && service.db.messages == old(service.db.messages)[..i] + old(service.db.messages)[i + 1..]
    {
      var gate := AuthorizeMessage(service.db.conversations, service.db.messages, id, userId, Manage);
      if gate.Err? {
        return Err(gate.error);
      }
      r := service.Remove(id);
    }
  }
}
