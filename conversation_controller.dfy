/** The `/conversations` endpoints: each authenticated route takes the
    requester's id from the session, applies its access check and, when the
    check passes, delegates to the conversation service. A refused request
    changes nothing. */
module ConversationApi {
  import opened Common
  import opened Entities
  import opened Database
  import opened Conversations
  import opened Access

  /** `GET /conversations` asks for the requester's own conversations only. */
  lemma FindAllShowsOnlyOwn(cs: seq<Conversation>, userId: string)
    requires userId != ""
    ensures forall c :: c in FindAll(cs, Some(userId)) <==> c in cs && Allows(Manage, c, userId)
  {
  }

  /** `GET /conversations/search` likewise searches only the requester's own. */
  lemma SearchShowsOnlyOwn(cs: seq<Conversation>, ms: seq<Message>, keyword: string, userId: string)
    requires userId != ""
    ensures forall c :: c in Search(cs, ms, keyword, Some(userId)) ==> c in cs && Allows(Manage, c, userId)
  {
  }

  class ConversationController {
    const service: ConversationService

    constructor (service: ConversationService)
      ensures this.service == service
    {
      this.service := service;
    }

    /** `POST /conversations`: the owner is always the requester, whatever
        the body says. */
    method Create(userId: string, dto: CreateConversationDto) returns (c: Conversation)
      requires service.db.Valid()
      modifies service.db
      ensures service.db.Valid()
      ensures c.userId == userId && c.name == dto.name && c.isPublic == (dto.isPublic == Some(true))
      ensures c.shareLink.None? && c.shareExpiresAt.None?
      ensures c.id == service.db.mint(old(service.db.clock))
      ensures c.createdAt == old(service.db.clock) && c.updatedAt == old(service.db.clock)
      ensures !ConversationExists(old(service.db.conversations), c.id)
      ensures service.db.conversations == old(service.db.conversations) + [c]
      ensures service.db.messages == old(service.db.messages)
      ensures service.db.clock == old(service.db.clock) + 1
      ensures var mine := FindAll(service.db.conversations, Some(userId)); |mine| > 0 && mine[0] == c
    {
      c := service.Create(dto.(userId := userId));
    }

    /** `GET /conversations/:id`: NotFound for an unknown id; the
        conversation for its owner, or for anyone when it is public;
        BadRequest otherwise. */
    function FindOne(userId: string, id: string): (r: Result<Conversation>)
      requires service.db.Valid()
      reads service.db
      ensures r == Err(NotFound) <==> !ConversationExists(service.db.conversations, id)
      ensures forall c :: c in service.db.conversations && c.id == id ==>
        r == if c.userId == userId || c.isPublic then Ok(c) else Err(BadRequest)
      ensures r.Ok? ==> r.value in service.db.conversations && Allows(View, r.value, userId)
      ensures r.Err? ==> r.error == NotFound || r.error == BadRequest
    {
      IdsUnique(service.db.conversations, service.db.messages, service.db.clock, service.db.mint);
      AuthorizeDecides(service.db.conversations, id, userId, View);
      Authorize(service.db.conversations, id, userId, View)
    }

    /** `PATCH /conversations/:id`: owner only. */
    method Update(userId: string, id: string, dto: UpdateConversationDto) returns (r: Result<Conversation>)
      requires service.db.Valid()
      modifies service.db
      ensures service.db.Valid()
      ensures service.db.messages == old(service.db.messages)
      ensures Authorize(old(service.db.conversations), id, userId, Manage).Err? ==>
        r == Err(Authorize(old(service.db.conversations), id, userId, Manage).error) && unchanged(service.db)
      ensures Authorize(old(service.db.conversations), id, userId, Manage).Ok? ==>
        var i := IndexOfConversation(old(service.db.conversations), id).value;
        var c := Persist(old(service.db.conversations)[i], Applied(old(service.db.conversations)[i], dto), old(service.db.clock));
        && r == Ok(c) && service.db.conversations == old(service.db.conversations)[i := c]
        && service.db.clock == old(service.db.clock) + 1
    {
      var allowed := Authorize(service.db.conversations, id, userId, Manage);
      if allowed.Err? {
        return Err(allowed.error);
      }
      r := service.Update(id, dto);
    }

    /** `DELETE /conversations/:id`: owner only; the messages go with it. */
    method Remove(userId: string, id: string) returns (r: Result<()>)
      requires service.db.Valid()
      modifies service.db
      ensures service.db.Valid()
      ensures service.db.clock == old(service.db.clock)
      ensures Authorize(old(service.db.conversations), id, userId, Manage).Err? ==>
        r == Err(Authorize(old(service.db.conversations), id, userId, Manage).error) && unchanged(service.db)
      ensures Authorize(old(service.db.conversations), id, userId, Manage).Ok? ==>
        var i := IndexOfConversation(old(service.db.conversations), id).value;
        && r == Ok(())
        && service.db.conversations == old(service.db.conversations)[..i] + old(service.db.conversations)[i + 1..]
        && service.db.messages == Filter(old(service.db.messages), (m: Message) => m.conversationId != id)
    {
      var allowed := Authorize(service.db.conversations, id, userId, Manage);
      if allowed.Err? {
        return Err(allowed.error);
      }
      r := service.Remove(id);
    }

    /** `POST /conversations/:id/share`: owner only. */
    method ShareConversation(userId: string, id: string, expiresAt: Option<nat>, token: string) returns (r: Result<string>)
      requires service.db.Valid()
      requires IsHexToken(token)
      modifies service.db
      ensures service.db.Valid()
      ensures service.db.messages == old(service.db.messages)
      ensures Authorize(old(service.db.conversations), id, userId, Manage).Err? ==>
        r == Err(Authorize(old(service.db.conversations), id, userId, Manage).error) && unchanged(service.db)
      ensures Authorize(old(service.db.conversations), id, userId, Manage).Ok? ==>
        var i := IndexOfConversation(old(service.db.conversations), id).value;
        var c := old(service.db.conversations)[i];
        var s := Shared(c, expiresAt, token);
        if !HasShareLink(c) && LinkInUse(old(service.db.conversations), token) then
          r == Err(InternalServerError) && service.db.conversations == old(service.db.conversations)
          && service.db.clock == old(service.db.clock)
        else
          && s.shareLink.Some? && r == Ok(s.shareLink.value)
          && service.db.conversations == old(service.db.conversations)[i := Persist(c, s, old(service.db.clock))]
          && service.db.clock == old(service.db.clock) + 1
    {
      var allowed := Authorize(service.db.conversations, id, userId, Manage);
      if allowed.Err? {
        return Err(allowed.error);
      }
      r := service.ShareConversation(id, expiresAt, token);
    }

    /** `DELETE /conversations/:id/share`: owner only. */
    method RevokeShare(userId: string, id: string) returns (r: Result<()>)
      requires service.db.Valid()
      modifies service.db
      ensures service.db.Valid()
      ensures service.db.messages == old(service.db.messages)
      ensures Authorize(old(service.db.conversations), id, userId, Manage).Err? ==>
        r == Err(Authorize(old(service.db.conversations), id, userId, Manage).error) && unchanged(service.db)
      ensures Authorize(old(service.db.conversations), id, userId, Manage).Ok? ==>
        var i := IndexOfConversation(old(service.db.conversations), id).value;
        var c := old(service.db.conversations)[i];
        r == Ok(()) && service.db.conversations == old(service.db.conversations)[i := Persist(c, Revoked(c), old(service.db.clock))]
        && service.db.clock == old(service.db.clock) + 1
    {
      var allowed := Authorize(service.db.conversations, id, userId, Manage);
      if allowed.Err? {
        return Err(allowed.error);
      }
      r := service.RevokeShare(id);
    }
  }
}
