/** The conversation service: lookups, the owner and keyword queries, CRUD and
    the share-link state machine (unshared -> shared -> unshared via revoke). */
module Conversations {
  import opened Common
  import opened Entities
  import opened Database

  datatype CreateConversationDto = CreateConversationDto(name: string, userId: string, isPublic: Option<bool>)

  /** Every field is optional; only the present ones are copied. */
  datatype UpdateConversationDto = UpdateConversationDto(name: Option<string>, userId: Option<string>, isPublic: Option<bool>)

  /** What `randomBytes(8).toString('hex')` yields: 16 lower-case hex digits. */
  predicate IsHexToken(t: string)
  {
    |t| == 16 && forall k :: 0 <= k < |t| ==> t[k] in "0123456789abcdef"
  }

  // ---------------------------------------------------------------- lookups

  /** `findOne`: the conversation with this id, or NotFound. */
  function FindOne(cs: seq<Conversation>, id: string): (r: Result<Conversation>)
    ensures r.Ok? <==> ConversationExists(cs, id)
    ensures r.Ok? ==> r.value in cs && r.value.id == id
    ensures r.Err? ==> r.error == NotFound
  {
    match IndexOfConversation(cs, id)
    case None => Err(NotFound)
    case Some(i) => Ok(cs[i])
  }

  /** The link has an expiry and `now` is strictly later than it. */
  predicate Expired(c: Conversation, now: nat)
  {
    c.shareExpiresAt.Some? && now > c.shareExpiresAt.value
  }

  function IndexOfShareLink(cs: seq<Conversation>, token: string): (r: Option<nat>)
    ensures r.Some? ==> r.value < |cs| && cs[r.value].shareLink == Some(token)
    ensures r.None? <==> !LinkInUse(cs, token)
  {
    if cs == [] then None
    else if cs[0].shareLink == Some(token) then Some(0)
    else match IndexOfShareLink(cs[1..], token)
      case None => None
      case Some(k) => Some(k + 1)
  }

  /** `findByShareLink`: resolves a token at time `now`; it changes nothing. */
  function FindByShareLink(cs: seq<Conversation>, token: string, now: nat): (r: Result<Conversation>)
    ensures r == Err(NotFound) <==> !LinkInUse(cs, token)
    ensures r == Err(BadRequest) ==> exists c :: c in cs && c.shareLink == Some(token) && Expired(c, now)
    ensures r.Ok? ==> r.value in cs && r.value.shareLink == Some(token) && !Expired(r.value, now)
    ensures r.Ok? || r.error == NotFound || r.error == BadRequest
  {
    match IndexOfShareLink(cs, token)
    case None => Err(NotFound)
    case Some(i) => if Expired(cs[i], now) then Err(BadRequest) else Ok(cs[i])
  }

  /** With unique links, resolving the link of a stored conversation yields
      that conversation until (and including) its expiry instant, and
      BadRequest strictly after it. */
  lemma ShareLinkResolution(cs: seq<Conversation>, c: Conversation, now: nat)
    requires LinksUnique(cs) && c in cs && c.shareLink.Some?
    ensures FindByShareLink(cs, c.shareLink.value, now) == if Expired(c, now) then Err(BadRequest) else Ok(c)
  {
    var k :| 0 <= k < |cs| && cs[k] == c;
    var j := IndexOfShareLink(cs, c.shareLink.value).value;
    assert cs[j].shareLink == cs[k].shareLink;
  }

  /** Once a link has expired it stays expired: resolution is monotone in time. */
  lemma ExpiryIsPermanent(cs: seq<Conversation>, token: string, now: nat, later: nat)
    requires now <= later
    requires FindByShareLink(cs, token, now) == Err(BadRequest)
    ensures FindByShareLink(cs, token, later) == Err(BadRequest)
  {
  }

  // ------------------------------------------------------- ordered queries

  /** Sorted by `updatedAt`, most recent first. */
  ghost predicate MostRecentFirst(cs: seq<Conversation>)
  {
    forall i, j :: 0 <= i < j < |cs| ==> cs[i].updatedAt >= cs[j].updatedAt
  }

  /** A row no older than every row of an ordered list can go first. */
  lemma PrependKeepsRecency(h: Conversation, cs: seq<Conversation>)
    requires MostRecentFirst(cs)
    requires forall x :: x in cs ==> x.updatedAt <= h.updatedAt
    ensures MostRecentFirst([h] + cs)
  {
    forall i, j | 0 <= i < j < |[h] + cs|
      ensures ([h] + cs)[i].updatedAt >= ([h] + cs)[j].updatedAt
    {
      assert ([h] + cs)[j] == cs[j - 1];
      if i > 0 {
        assert ([h] + cs)[i] == cs[i - 1];
      }
    }
  }

  /** One step of the ordering: `c` goes before the first row that is not
      more recent than it. */
  function InsertByRecency(c: Conversation, cs: seq<Conversation>): seq<Conversation>
  {
    if cs == [] || c.updatedAt >= cs[0].updatedAt then [c] + cs
    else [cs[0]] + InsertByRecency(c, cs[1..])
  }

  lemma {:induction false} InsertByRecencyPermutes(c: Conversation, cs: seq<Conversation>)
    ensures multiset(InsertByRecency(c, cs)) == multiset(cs) + multiset{c}
  {
    if !(cs == [] || c.updatedAt >= cs[0].updatedAt) {
      InsertByRecencyPermutes(c, cs[1..]);
      assert cs == [cs[0]] + cs[1..];
    }
  }

  lemma {:induction false} InsertByRecencySorted(c: Conversation, cs: seq<Conversation>)
    requires MostRecentFirst(cs)
    ensures MostRecentFirst(InsertByRecency(c, cs))
  {
    if cs == [] || c.updatedAt >= cs[0].updatedAt {
      forall x | x in cs
        ensures x.updatedAt <= c.updatedAt
      {
        var k :| 0 <= k < |cs| && cs[k] == x;
        assert k == 0 || cs[0].updatedAt >= cs[k].updatedAt;
      }
      PrependKeepsRecency(c, cs);
    } else {
      var rest := InsertByRecency(c, cs[1..]);
      InsertByRecencySorted(c, cs[1..]);
      InsertByRecencyPermutes(c, cs[1..]);
      forall x | x in rest
        ensures x.updatedAt <= cs[0].updatedAt
      {
        assert x in multiset(rest);
        if x != c {
          assert x in multiset(cs[1..]);
          var k :| 0 <= k < |cs[1..]| && cs[1..][k] == x;
          assert cs[k + 1] == x;
        }
      }
      PrependKeepsRecency(cs[0], rest);
    }
  }

  /** `order: { updatedAt: 'DESC' }`: a permutation of the rows, most
      recently updated first. */
  function ByRecency(cs: seq<Conversation>): (r: seq<Conversation>)
    ensures MostRecentFirst(r)
    ensures multiset(r) == multiset(cs)
  {
    if cs == [] then []
    else
      assert cs == [cs[0]] + cs[1..];
      var rest := ByRecency(cs[1..]);
      InsertByRecencySorted(cs[0], rest);
      InsertByRecencyPermutes(cs[0], rest);
      InsertByRecency(cs[0], rest)
  }

  /** The `where` of `findAll` and `search`: no owner filter when the user
      id is falsy. */
  predicate OwnedBy(c: Conversation, userId: Option<string>)
  {
    !Truthy(userId) || c.userId == userId.value
  }

  /** `findAll`: the user's conversations (all of them when no user is
      given), most recently updated first. */
  function FindAll(cs: seq<Conversation>, userId: Option<string>): (r: seq<Conversation>)
    ensures MostRecentFirst(r)
    ensures forall c :: c in r <==> c in cs && OwnedBy(c, userId)
    ensures forall c :: multiset(r)[c] == if OwnedBy(c, userId) then multiset(cs)[c] else 0
    ensures !Truthy(userId) ==> multiset(r) == multiset(cs)
  {
    var mine := Filter(cs, (c: Conversation) => OwnedBy(c, userId));
    forall c
      ensures multiset(mine)[c] == if OwnedBy(c, userId) then multiset(cs)[c] else 0
    {
      FilterCount(cs, (c: Conversation) => OwnedBy(c, userId), c);
    }
    assert !Truthy(userId) ==> mine == cs by {
      if !Truthy(userId) {
        FilterAll(cs, (c: Conversation) => OwnedBy(c, userId));
      }
    }
    var r := ByRecency(mine);
    forall c
      ensures c in r <==> c in cs && OwnedBy(c, userId)
    {
      assert c in r <==> c in multiset(mine);
    }
    r
  }

  lemma {:induction false} FilterAll<T(!new)>(s: seq<T>, p: T -> bool)
    requires forall x :: x in s ==> p(x)
    ensures Filter(s, p) == s
  {
    if s != [] {
      FilterAll(s[1..], p);
      assert s == [s[0]] + s[1..];
    }
  }

  /** A conversation matches a search when its name, or the content of one
      of its messages, contains the keyword case-insensitively. */
  predicate SearchMatch(c: Conversation, ms: seq<Message>, keyword: string)
  {
    || ContainsIgnoreCase(c.name, keyword)
    || exists m :: m in ms && m.conversationId == c.id && ContainsIgnoreCase(m.content, keyword)
  }

  /** `search`: the user's conversations matching the keyword by name or by
      message content, most recently updated first. */
  function Search(cs: seq<Conversation>, ms: seq<Message>, keyword: string, userId: Option<string>): (r: seq<Conversation>)
    ensures MostRecentFirst(r)
    ensures forall c :: c in r <==> c in cs && OwnedBy(c, userId) && SearchMatch(c, ms, keyword)
    ensures forall c :: multiset(r)[c] == if OwnedBy(c, userId) && SearchMatch(c, ms, keyword) then multiset(cs)[c] else 0
  {
    var keep := (c: Conversation) => OwnedBy(c, userId) && SearchMatch(c, ms, keyword);
    var hits := Filter(cs, keep);
    forall c
      ensures multiset(hits)[c] == if OwnedBy(c, userId) && SearchMatch(c, ms, keyword) then multiset(cs)[c] else 0
    {
      FilterCount(cs, keep, c);
    }
    var r := ByRecency(hits);
    forall c
      ensures c in r <==> c in cs && OwnedBy(c, userId) && SearchMatch(c, ms, keyword)
    {
      assert c in r <==> c in multiset(hits);
      assert keep(c) == (OwnedBy(c, userId) && SearchMatch(c, ms, keyword));
    }
    r
  }

  // ---------------------------------------------------- row transitions

  /** `Object.assign(conversation, dto)`: the present fields overwrite and
      every other field is kept. */
  function Applied(c: Conversation, dto: UpdateConversationDto): (u: Conversation)
    ensures dto.name.Some? ==> u.name == dto.name.value
    ensures dto.name.None? ==> u.name == c.name
    ensures dto.userId.Some? ==> u.userId == dto.userId.value
    ensures dto.userId.None? ==> u.userId == c.userId
    ensures dto.isPublic.Some? ==> u.isPublic == dto.isPublic.value
    ensures dto.isPublic.None? ==> u.isPublic == c.isPublic
    ensures u.(name := c.name, userId := c.userId, isPublic := c.isPublic) == c
  {
    c.(name := if dto.name.Some? then dto.name.value else c.name,
       userId := if dto.userId.Some? then dto.userId.value else c.userId,
       isPublic := if dto.isPublic.Some? then dto.isPublic.value else c.isPublic)
  }

  /** The share step: an existing link (in the JavaScript sense) is kept
      and only a missing one becomes the token; the expiry changes only
      when one is supplied; no other field changes. */
  function Shared(c: Conversation, expiresAt: Option<nat>, token: string): (s: Conversation)
    ensures HasShareLink(c) ==> s.shareLink == c.shareLink
    ensures !HasShareLink(c) ==> s.shareLink == Some(token)
    ensures expiresAt.Some? ==> s.shareExpiresAt == expiresAt
    ensures expiresAt.None? ==> s.shareExpiresAt == c.shareExpiresAt
    ensures s.(shareLink := c.shareLink, shareExpiresAt := c.shareExpiresAt) == c
  {
    c.(shareLink := if HasShareLink(c) then c.shareLink else Some(token),
       shareExpiresAt := if expiresAt.Some? then expiresAt else c.shareExpiresAt)
  }

  /** The revoke step: both share fields become null and nothing else
      changes. */
  function Revoked(c: Conversation): (r: Conversation)
    ensures !HasShareLink(r) && r.shareLink.None? && r.shareExpiresAt.None?
    ensures r.(shareLink := c.shareLink, shareExpiresAt := c.shareExpiresAt) == c
  {
    c.(shareLink := None, shareExpiresAt := None)
  }

  /** The repository's `save`: a row whose columns did not change is not
      written, so its `updatedAt` stays; otherwise the row is written with
      `updatedAt` stamped `now`. */
  function Persist(before: Conversation, after: Conversation, now: nat): (saved: Conversation)
    ensures after == before ==> saved == before
    ensures after != before ==> saved.updatedAt == now && saved.(updatedAt := after.updatedAt) == after
  {
    if after == before then before else after.(updatedAt := now)
  }

  /** Sharing twice returns the same link: the second call, with no expiry
      or with the same one, changes nothing, whatever token it draws. */
  lemma ShareIsIdempotent(c: Conversation, expiresAt: Option<nat>, token: string, token': string)
    requires token != ""
    ensures var s := Shared(c, expiresAt, token);
      && Shared(s, None, token') == s
      && Shared(s, expiresAt, token') == s
      && Persist(s, Shared(s, None, token'), 0) == s
  {
  }

  /** After a revoke, the next share mints the token it is given. */
  lemma ShareAfterRevokeMints(c: Conversation, expiresAt: Option<nat>, token: string)
    ensures Shared(Revoked(c), expiresAt, token).shareLink == Some(token)
  {
  }

  /** A row updated after every stored row heads its owner's listing. */
  lemma NewestHeadsListing(cs: seq<Conversation>, c: Conversation, userId: Option<string>)
    requires forall x :: x in cs ==> x.updatedAt < c.updatedAt
    requires OwnedBy(c, userId)
    ensures var r := FindAll(cs + [c], userId); |r| > 0 && r[0] == c
  {
    var r := FindAll(cs + [c], userId);
    assert c in r;
    var k :| 0 <= k < |r| && r[k] == c;
    assert r[0].updatedAt >= r[k].updatedAt;
    assert r[0] in cs + [c];
  }

  // ------------------------------------------------------------ the service

  /** The link a share leaves on row `i` is held by no other row, provided a
      fresh token is minted only when no row holds it. */
  lemma SharedLinkFree(cs: seq<Conversation>, i: nat, expiresAt: Option<nat>, token: string, now: nat)
    requires i < |cs| && LinksUnique(cs)
    requires HasShareLink(cs[i]) || !LinkInUse(cs, token)
    ensures var saved := Persist(cs[i], Shared(cs[i], expiresAt, token), now);
      saved.shareLink.Some? ==> forall j :: 0 <= j < |cs| && j != i ==> cs[j].shareLink != saved.shareLink
  {
    if !HasShareLink(cs[i]) {
      assert forall j :: 0 <= j < |cs| ==> cs[j] in cs;
    }
  }

  class ConversationService {
    const db: Store

    constructor (db: Store)
      ensures this.db == db
    {
      this.db := db;
    }

    /** `create`: a new unshared conversation owned by `dto.userId`, public
        exactly when the DTO says `isPublic: true`, keyed and stamped with
        the store's current tick. */
    method Create(dto: CreateConversationDto) returns (c: Conversation)
      requires db.Valid()
      modifies db
      ensures db.Valid()
      ensures c.name == dto.name && c.userId == dto.userId
      ensures c.isPublic == (dto.isPublic == Some(true))
      ensures c.shareLink.None? && c.shareExpiresAt.None?
      ensures c.id == db.mint(old(db.clock)) && c.createdAt == old(db.clock) && c.updatedAt == old(db.clock)
      ensures !ConversationExists(old(db.conversations), c.id)
      ensures db.conversations == old(db.conversations) + [c]
      ensures db.messages == old(db.messages) && db.clock == old(db.clock) + 1
      ensures var mine := FindAll(db.conversations, Some(c.userId)); |mine| > 0 && mine[0] == c
    {
      var t := db.clock;
      c := Conversation(db.mint(t), dto.name, dto.userId,
                        if dto.isPublic.Some? then dto.isPublic.value else false,
                        None, None, t, t);
      InsertConversationConsistent(db.conversations, db.messages, t, db.mint, c);
      NewestHeadsListing(db.conversations, c, Some(c.userId));
      db.conversations := db.conversations + [c];
      db.clock := t + 1;
    }

    /** `update`: NotFound for an unknown id; otherwise the DTO's present
        fields overwrite the row, and the saved row is returned. */
    method Update(id: string, dto: UpdateConversationDto) returns (r: Result<Conversation>)
      requires db.Valid()
      modifies db
      ensures db.Valid()
      ensures db.messages == old(db.messages)
      ensures !ConversationExists(old(db.conversations), id) ==>
        r == Err(NotFound) && db.conversations == old(db.conversations) && db.clock == old(db.clock)
      ensures ConversationExists(old(db.conversations), id) ==>
        var i := IndexOfConversation(old(db.conversations), id).value;
        var c := Persist(old(db.conversations)[i], Applied(old(db.conversations)[i], dto), old(db.clock));
        r == Ok(c) && db.conversations == old(db.conversations)[i := c] && db.clock == old(db.clock) + 1
    {
      var found := IndexOfConversation(db.conversations, id);
      if found.None? {
        return Err(NotFound);
      }
      var i := found.value;
      var before := db.conversations[i];
      var c := Persist(before, Applied(before, dto), db.clock);
      ReplaceConversationConsistent(db.conversations, db.messages, db.clock, db.mint, i, c, db.clock + 1);
      db.conversations := db.conversations[i := c];
      db.clock := db.clock + 1;
      r := Ok(c);
    }

    /** `remove`: NotFound for an unknown id; otherwise the row goes, and
        the database cascade deletes the conversation's messages. */
    method Remove(id: string) returns (r: Result<()>)
      requires db.Valid()
      modifies db
      ensures db.Valid()
      ensures db.clock == old(db.clock)
      ensures !ConversationExists(old(db.conversations), id) ==>
        r == Err(NotFound) && db.conversations == old(db.conversations) && db.messages == old(db.messages)
      ensures ConversationExists(old(db.conversations), id) ==>
        var i := IndexOfConversation(old(db.conversations), id).value;
        && r == Ok(())
        && db.conversations == old(db.conversations)[..i] + old(db.conversations)[i + 1..]
        && db.messages == Filter(old(db.messages), (m: Message) => m.conversationId != id)
    {
      var found := IndexOfConversation(db.conversations, id);
      if found.None? {
        return Err(NotFound);
      }
      var i := found.value;
      RemoveConversationConsistent(db.conversations, db.messages, db.clock, db.mint, i);
      db.messages := Filter(db.messages, (m: Message) => m.conversationId != id);
      db.conversations := db.conversations[..i] + db.conversations[i + 1..];
      r := Ok(());
    }

    /** `shareConversation`: NotFound for an unknown id. A token is minted
        only when the conversation has no link; a minted token that another
        row already holds violates the column's unique constraint. The
        expiry is set only when supplied. Returns the link. */
    method ShareConversation(id: string, expiresAt: Option<nat>, token: string) returns (r: Result<string>)
      requires db.Valid()
      requires IsHexToken(token)
      modifies db
      ensures db.Valid()
      ensures db.messages == old(db.messages)
      ensures !ConversationExists(old(db.conversations), id) ==>
        r == Err(NotFound) && db.conversations == old(db.conversations) && db.clock == old(db.clock)
      ensures ConversationExists(old(db.conversations), id) ==>
        var i := IndexOfConversation(old(db.conversations), id).value;
        var c := old(db.conversations)[i];
        var s := Shared(c, expiresAt, token);
        if !HasShareLink(c) && LinkInUse(old(db.conversations), token) then
          r == Err(InternalServerError) && db.conversations == old(db.conversations) && db.clock == old(db.clock)
        else
          && s.shareLink.Some? && r == Ok(s.shareLink.value)
          && db.conversations == old(db.conversations)[i := Persist(c, s, old(db.clock))]
          && db.clock == old(db.clock) + 1
    {
      var found := IndexOfConversation(db.conversations, id);
      if found.None? {
        return Err(NotFound);
      }
      var i := found.value;
      var c := db.conversations[i];
      if !HasShareLink(c) && LinkInUse(db.conversations, token) {
        return Err(InternalServerError);
      }
      var s := Shared(c, expiresAt, token);
      var saved := Persist(c, s, db.clock);
      SharedLinkFree(db.conversations, i, expiresAt, token, db.clock);
      ReplaceConversationConsistent(db.conversations, db.messages, db.clock, db.mint, i, saved, db.clock + 1);
      db.conversations := db.conversations[i := saved];
      db.clock := db.clock + 1;
      r := Ok(s.shareLink.value);
    }

    /** `revokeShare`: NotFound for an unknown id; otherwise both share
        fields are cleared and nothing else changes. */
    method RevokeShare(id: string) returns (r: Result<()>)
      requires db.Valid()
      modifies db
      ensures db.Valid()
      ensures db.messages == old(db.messages)
      ensures !ConversationExists(old(db.conversations), id) ==>
        r == Err(NotFound) && db.conversations == old(db.conversations) && db.clock == old(db.clock)
      ensures ConversationExists(old(db.conversations), id) ==>
        var i := IndexOfConversation(old(db.conversations), id).value;
        var c := old(db.conversations)[i];
        r == Ok(()) && db.conversations == old(db.conversations)[i := Persist(c, Revoked(c), old(db.clock))]
        && db.clock == old(db.clock) + 1
    {
      var found := IndexOfConversation(db.conversations, id);
      if found.None? {
        return Err(NotFound);
      }
      var i := found.value;
      var c := db.conversations[i];
      var saved := Persist(c, Revoked(c), db.clock);
      ReplaceConversationConsistent(db.conversations, db.messages, db.clock, db.mint, i, saved, db.clock + 1);
      db.conversations := db.conversations[i := saved];
      db.clock := db.clock + 1;
      r := Ok(());
    }
  }
}
