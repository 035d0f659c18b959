/** The message exchange engine: appending a turn (and the AI's reply to a
    user turn), editing a user turn with optional in-place regeneration of the
    next AI reply, deletion, keyword search and the labelled history handed
    to the AI adapter. */
module Messages {
  import opened Common
  import opened Entities
  import opened Database

  /** `isFromAi` is optional in the request and defaults to false. */
  datatype CreateMessageDto = CreateMessageDto(content: string, conversationId: string, isFromAi: Option<bool>)

  predicate AuthoredByAi(dto: CreateMessageDto)
  {
    dto.isFromAi == Some(true)
  }

  /** The AI adapter: given the prompt and the labelled history, the reply
      text, or None when its promise rejects. */
  type AiAdapter = (string, seq<string>) -> Option<string>

  // ------------------------------------------------------------ reads

  /** `findOne`: the message with this id, or NotFound. */
  function FindOne(ms: seq<Message>, id: string): (r: Result<Message>)
    ensures r.Ok? ==> r.value in ms && r.value.id == id
    ensures r.Err? <==> forall m :: m in ms ==> m.id != id
    ensures r.Err? ==> r.error == NotFound
  {
    match IndexOfMessage(ms, id)
    case None => Err(NotFound)
    case Some(i) => Ok(ms[i])
  }

  /** `findAll`: the conversation's messages (every message when the id is
      falsy), oldest first. */
  function FindAll(ms: seq<Message>, conversationId: Option<string>): (r: seq<Message>)
    ensures forall m :: m in r <==> m in ms && (!Truthy(conversationId) || m.conversationId == conversationId.value)
    ensures MessagesChronological(ms) ==> MessagesChronological(r)
  {
    if Truthy(conversationId) then
      var p := (m: Message) => m.conversationId == conversationId.value;
      FilterKeepsMessagesChronological(ms, p);
      Filter(ms, p)
    else ms
  }

  /** `searchInConversation`: the conversation's messages whose content
      contains the keyword case-insensitively, oldest first. */
  function SearchInConversation(ms: seq<Message>, keyword: string, conversationId: string): (r: seq<Message>)
    ensures forall m :: m in r <==> m in ms && m.conversationId == conversationId && ContainsIgnoreCase(m.content, keyword)
    ensures MessagesChronological(ms) ==> MessagesChronological(r)
  {
    var p := (m: Message) => m.conversationId == conversationId && ContainsIgnoreCase(m.content, keyword);
    FilterKeepsMessagesChronological(ms, p);
    Filter(ms, p)
  }

  // ------------------------------------------------------------ history

  /** One history entry: the role prefix followed by the content. */
  function Label(m: Message): string
  {
    (if m.isFromAi then "AI: " else "User: ") + m.content
  }

  /** The `map` over the ordered query: entry k labels message k. */
  function Labels(ms: seq<Message>): (r: seq<string>)
    ensures |r| == |ms|
    ensures forall k :: 0 <= k < |ms| ==> r[k] == Label(ms[k])
  {
    if ms == [] then [] else [Label(ms[0])] + Labels(ms[1..])
  }

  /** The query of `getConversationHistory`: the conversation's messages and,
      when `untilMessageId` is truthy, only those whose id is at most it in
      string order. */
  predicate InHistory(m: Message, conversationId: string, untilMessageId: Option<string>)
  {
    m.conversationId == conversationId && (!Truthy(untilMessageId) || StrLe(m.id, untilMessageId.value))
  }

  function Transcript(ms: seq<Message>, conversationId: string, untilMessageId: Option<string>): (r: seq<Message>)
    ensures forall m :: m in r <==> m in ms && InHistory(m, conversationId, untilMessageId)
    ensures MessagesChronological(ms) ==> MessagesChronological(r)
  {
    var p := (m: Message) => InHistory(m, conversationId, untilMessageId);
    FilterKeepsMessagesChronological(ms, p);
    Filter(ms, p)
  }

  /** `getConversationHistory`: one entry per selected message, in creation
      order; entry k shows the role of message k and then its content. */
  function History(ms: seq<Message>, conversationId: string, untilMessageId: Option<string>): (h: seq<string>)
    ensures var sel := Transcript(ms, conversationId, untilMessageId);
      && |h| == |sel|
      && forall k :: 0 <= k < |h| ==>
        && (sel[k].isFromAi <==> IsPrefix("AI: ", h[k]))
        && (!sel[k].isFromAi <==> IsPrefix("User: ", h[k]))
        && h[k][if sel[k].isFromAi then 4 else 6..] == sel[k].content
  {
    var sel := Transcript(ms, conversationId, untilMessageId);
    LabelsShowRoles(sel);
    Labels(sel)
  }

  /** The role can be read back from an entry's prefix, and the content
      follows it unchanged. */
  lemma LabelShowsRole(m: Message)
    ensures m.isFromAi <==> IsPrefix("AI: ", Label(m))
    ensures !m.isFromAi <==> IsPrefix("User: ", Label(m))
    ensures Label(m)[if m.isFromAi then 4 else 6..] == m.content
  {
    var prefix: string := if m.isFromAi then "AI: " else "User: ";
    assert Label(m) == prefix + m.content;
    assert Label(m)[..|prefix|] == prefix;
    assert Label(m)[|prefix|..] == m.content;
    if m.isFromAi {
      assert !IsPrefix("User: ", Label(m)) by {
        if |Label(m)| >= 6 { assert Label(m)[..6][0] == 'A'; }
      }
    } else {
      assert !IsPrefix("AI: ", Label(m)) by {
        if |Label(m)| >= 4 { assert Label(m)[..4][0] == 'U'; }
      }
    }
  }

  /** Every entry of a labelled list shows its message's role and content. */
  lemma LabelsShowRoles(ms: seq<Message>)
    ensures forall k :: 0 <= k < |ms| ==>
      && (ms[k].isFromAi <==> IsPrefix("AI: ", Labels(ms)[k]))
      && (!ms[k].isFromAi <==> IsPrefix("User: ", Labels(ms)[k]))
      && Labels(ms)[k][if ms[k].isFromAi then 4 else 6..] == ms[k].content
  {
    forall k | 0 <= k < |ms|
      ensures && (ms[k].isFromAi <==> IsPrefix("AI: ", Labels(ms)[k]))
              && (!ms[k].isFromAi <==> IsPrefix("User: ", Labels(ms)[k]))
              && Labels(ms)[k][if ms[k].isFromAi then 4 else 6..] == ms[k].content
    {
      LabelShowsRole(ms[k]);
    }
  }

  lemma {:induction false} LabelsConcat(a: seq<Message>, b: seq<Message>)
    ensures Labels(a + b) == Labels(a) + Labels(b)
  {
    assert forall k :: 0 <= k < |a + b| ==> Labels(a + b)[k] == (Labels(a) + Labels(b))[k];
  }

  /** The history built right after appending turn `u` is the previous
      history followed by `u`'s entry. */
  lemma {:induction false} HistoryAfterAppend(ms: seq<Message>, u: Message)
    ensures History(ms + [u], u.conversationId, None) == History(ms, u.conversationId, None) + [Label(u)]
  {
    var p := (m: Message) => InHistory(m, u.conversationId, None);
    FilterConcat(ms, [u], p);
    assert Filter([u], p) == [u] + Filter([u][1..], p);
    LabelsConcat(Transcript(ms, u.conversationId, None), [u]);
  }

  /** Identifiers of a conversation's messages increase with creation order. */
  ghost predicate IdsFollowCreation(ms: seq<Message>, conversationId: string)
  {
    forall i, j :: 0 <= i < j < |ms| && ms[i].conversationId == conversationId && ms[j].conversationId == conversationId
      ==> StrLt(ms[i].id, ms[j].id)
  }

  lemma TailIdsFollowCreation(ms: seq<Message>, cid: string)
    requires |ms| > 0 && IdsFollowCreation(ms, cid)
    ensures IdsFollowCreation(ms[1..], cid)
  {
    forall i, j | 0 <= i < j < |ms[1..]| && ms[1..][i].conversationId == cid && ms[1..][j].conversationId == cid
      ensures StrLt(ms[1..][i].id, ms[1..][j].id)
    {
      assert ms[1..][i] == ms[i + 1] && ms[1..][j] == ms[j + 1];
    }
  }

  /** Nothing created after the first message of a conversation has an id
      at most its id. */
  lemma NothingAfterCut(ms: seq<Message>)
    requires |ms| > 0 && ms[0].id != "" && IdsFollowCreation(ms, ms[0].conversationId)
    ensures Transcript(ms[1..], ms[0].conversationId, Some(ms[0].id)) == []
  {
    var x := ms[0];
    var pCut := (m: Message) => InHistory(m, x.conversationId, Some(x.id));
    forall m | m in ms[1..]
      ensures !pCut(m)
    {
      var j :| 0 <= j < |ms[1..]| && ms[1..][j] == m;
      assert ms[j + 1] == m;
      if m.conversationId == x.conversationId && StrLe(m.id, x.id) {
        assert StrLt(x.id, m.id);
        StrLeAntisymmetric(m.id, x.id);
      }
    }
    FilterNone(ms[1..], pCut);
  }

  /** The selection splits at its first message. */
  lemma TranscriptCons(ms: seq<Message>, cid: string, until: Option<string>)
    requires |ms| > 0
    ensures Transcript(ms, cid, until) ==
      (if InHistory(ms[0], cid, until) then [ms[0]] else []) + Transcript(ms[1..], cid, until)
  {
  }

  lemma PrefixCons(h: Message, a: seq<Message>, b: seq<Message>)
    requires IsPrefix(a, b)
    ensures IsPrefix([h] + a, [h] + b)
  {
    assert ([h] + b)[..|a| + 1] == [h] + b[..|a|];
  }

  /** A conversation's first message comes before its later ones in id
      order. */
  lemma FirstIdSmallest(ms: seq<Message>, x: Message)
    requires |ms| > 0 && x in ms[1..]
    requires ms[0].conversationId == x.conversationId
    requires IdsFollowCreation(ms, x.conversationId)
    ensures StrLt(ms[0].id, x.id)
  {
    var j :| 0 <= j < |ms[1..]| && ms[1..][j] == x;
    assert ms[j + 1] == x;
  }

  /** The id cut selects a creation-order prefix ending at the message only
      when ids happen to increase with creation order. */
  lemma {:induction false} TranscriptCutIsPrefix(ms: seq<Message>, x: Message)
    requires x in ms && x.id != ""
    requires IdsFollowCreation(ms, x.conversationId)
    ensures var cut := Transcript(ms, x.conversationId, Some(x.id));
      && |cut| > 0 && cut[|cut| - 1] == x
      && IsPrefix(cut, Transcript(ms, x.conversationId, None))
  {
    var cid := x.conversationId;
    var cut := Transcript(ms, cid, Some(x.id));
    var all := Transcript(ms, cid, None);
    var cut' := Transcript(ms[1..], cid, Some(x.id));
    var all' := Transcript(ms[1..], cid, None);
    TailIdsFollowCreation(ms, cid);
    TranscriptCons(ms, cid, Some(x.id));
    TranscriptCons(ms, cid, None);
    if ms[0] == x {
      NothingAfterCut(ms);
      StrLeReflexive(x.id);
      assert cut == [x];
      assert all == [x] + all';
      assert all[..1] == [x];
    } else {
      assert x in ms[1..];
      TranscriptCutIsPrefix(ms[1..], x);
      if ms[0].conversationId == cid {
        FirstIdSmallest(ms, x);
        assert cut == [ms[0]] + cut';
        assert all == [ms[0]] + all';
        PrefixCons(ms[0], cut', all');
      } else {
        assert cut == cut' && all == all';
      }
    }
  }

  /** The same fact about the labelled history. */
  lemma HistoryCutIsPrefix(ms: seq<Message>, x: Message)
    requires x in ms && x.id != ""
    requires IdsFollowCreation(ms, x.conversationId)
    ensures var cut := History(ms, x.conversationId, Some(x.id));
      && |cut| > 0 && cut[|cut| - 1] == Label(x)
      && IsPrefix(cut, History(ms, x.conversationId, None))
  {
    TranscriptCutIsPrefix(ms, x);
  }

  /** The cut compares identifiers, not creation times: a reply created
      after the edited message but with a smaller id is kept. */
  lemma HistoryCutFollowsIdsNotTime()
    ensures var question := Message("b", "conv", "q", false, 1);
      var reply := Message("a", "conv", "r", true, 2);
      History([question, reply], "conv", Some(question.id)) == ["User: q", "AI: r"]
  {
    var question := Message("b", "conv", "q", false, 1);
    var reply := Message("a", "conv", "r", true, 2);
    var p := (m: Message) => InHistory(m, "conv", Some("b"));
    StrLeReflexive("b");
    assert StrLe("a", "b");
    assert Filter([question, reply], p) == [question] + Filter([reply], p);
    assert Filter([reply], p) == [reply] + Filter([], p);
    assert Transcript([question, reply], "conv", Some("b")) == [question, reply];
    assert Labels([question, reply]) == [Label(question)] + Labels([reply]);
    assert Labels([reply]) == [Label(reply)] + Labels([]);
    assert Label(question) == "User: q";
    assert Label(reply) == "AI: r";
  }

  // ------------------------------------------------------- regeneration

  /** Message j is an AI reply in message i's conversation created after it. */
  predicate LaterAiReply(ms: seq<Message>, i: nat, j: nat)
  {
    i < |ms| && j < |ms| && ms[j].conversationId == ms[i].conversationId && ms[j].isFromAi && ms[j].createdAt > ms[i].createdAt
  }

  /** Among indices from `k` on, the later AI reply to message i with the
      smallest `createdAt` (the first of them on a tie). */
  function EarliestReplyFrom(ms: seq<Message>, i: nat, k: nat): (r: Option<nat>)
    requires i < |ms| && k <= |ms|
    decreases |ms| - k
    ensures r.Some? ==> k <= r.value && LaterAiReply(ms, i, r.value)
    ensures r.Some? ==> forall j: nat :: k <= j && LaterAiReply(ms, i, j) ==> ms[r.value].createdAt <= ms[j].createdAt
    ensures r.None? ==> forall j: nat :: k <= j ==> !LaterAiReply(ms, i, j)
  {
    if k == |ms| then None
    else
      var rest := EarliestReplyFrom(ms, i, k + 1);
      if LaterAiReply(ms, i, k) && (rest.None? || ms[k].createdAt <= ms[rest.value].createdAt) then Some(k)
      else rest
  }

  /** The regeneration query: the earliest AI message of the same
      conversation created strictly after message i. */
  function NextAiReply(ms: seq<Message>, i: nat): (r: Option<nat>)
    requires i < |ms|
    ensures r.Some? ==> LaterAiReply(ms, i, r.value)
    ensures r.Some? ==> forall j: nat :: LaterAiReply(ms, i, j) ==> ms[r.value].createdAt <= ms[j].createdAt
    ensures r.None? ==> forall j: nat :: !LaterAiReply(ms, i, j)
  {
    EarliestReplyFrom(ms, i, 0)
  }

  /** In a chronological store the earliest later reply is the first later
      reply in store order: no AI message of the conversation sits between
      the edited message and it. */
  lemma NextAiReplyIsAdjacent(ms: seq<Message>, i: nat)
    requires i < |ms| && MessagesChronological(ms)
    requires NextAiReply(ms, i).Some?
    ensures var j := NextAiReply(ms, i).value;
      && i < j
      && forall k :: i < k < j && ms[k].conversationId == ms[i].conversationId ==> !ms[k].isFromAi
  {
    var j := NextAiReply(ms, i).value;
    forall k: nat | i < k < j && ms[k].conversationId == ms[i].conversationId
      ensures !ms[k].isFromAi
    {
      assert ms[k].isFromAi ==> LaterAiReply(ms, i, k);
    }
  }

  // ------------------------------------------------------------ the service

  /** The answer of `create` for an existing conversation and the message
      rows it leaves: the turn is stamped with tick `t`; a user turn is
      followed by the adapter's reply, stamped `t + 1`, unless the adapter
      rejects. Rows already stored are kept, and a successful answer is the
      saved turn. */
  function Created(ms: seq<Message>, t: nat, mint: nat -> string, dto: CreateMessageDto, ai: AiAdapter): (out: (Result<Message>, seq<Message>))
    ensures |ms| < |out.1| <= |ms| + 2 && out.1[..|ms|] == ms
    ensures out.1[|ms|] == Message(mint(t), dto.conversationId, dto.content, AuthoredByAi(dto), t)
    ensures out.0.Ok? ==> out.0.value == out.1[|ms|]
    ensures |out.1| == |ms| + 2 <==> out.0.Ok? && !AuthoredByAi(dto)
    ensures out.0.Err? ==> out.0.error == AdapterFailure && !AuthoredByAi(dto)
    ensures AuthoredByAi(dto) ==> out.0.Ok? && |out.1| == |ms| + 1
    ensures !AuthoredByAi(dto) ==>
      match ai(dto.content, History(ms + [out.1[|ms|]], dto.conversationId, None))
      case None => out.0 == Err(AdapterFailure) && |out.1| == |ms| + 1
      case Some(reply) => out.0.Ok? && |out.1| == |ms| + 2 && out.1[|ms| + 1] == Message(mint(t + 1), dto.conversationId, reply, true, t + 1)
  {
    var turn := Message(mint(t), dto.conversationId, dto.content, AuthoredByAi(dto), t);
    if AuthoredByAi(dto) then (Ok(turn), ms + [turn])
    else
      match ai(dto.content, History(ms + [turn], dto.conversationId, None))
      case None => (Err(AdapterFailure), ms + [turn])
      case Some(reply) => (Ok(turn), ms + [turn, Message(mint(t + 1), dto.conversationId, reply, true, t + 1)])
  }

  class MessageService {
    const db: Store

    constructor (db: Store)
      ensures this.db == db
    {
      this.db := db;
    }

    /** `create`: NotFound when the conversation is unknown (nothing saved).
        Otherwise the turn is saved; for a user turn the adapter is asked for
        a reply, given the history that now ends with the turn, and the reply
        is saved as an AI message. A rejected adapter call leaves the saved
        turn in place. The created turn is what is returned. */
    method Create(dto: CreateMessageDto, ai: AiAdapter) returns (r: Result<Message>)
      requires db.Valid()
      modifies db
      ensures db.Valid()
      ensures db.conversations == old(db.conversations)
      ensures !ConversationExists(old(db.conversations), dto.conversationId) ==>
        r == Err(NotFound) && db.messages == old(db.messages)
      ensures ConversationExists(old(db.conversations), dto.conversationId) ==>
        (r, db.messages) == Created(old(db.messages), old(db.clock), db.mint, dto, ai)
    {
      if FindConversation(dto.conversationId).Err? {
        return Err(NotFound);
      }
      var t := db.clock;
      ghost var before := db.messages;
      var turn := Message(db.mint(t), dto.conversationId, dto.content, AuthoredByAi(dto), t);
      Save(turn);
      assert db.messages == before + [turn] && db.clock == t + 1;
      if AuthoredByAi(dto) {
        return Ok(turn);
      }
      var history := History(db.messages, dto.conversationId, None);
      var reply := ai(dto.content, history);
      if reply.None? {
        assert Created(before, t, db.mint, dto, ai) == (Err(AdapterFailure), before + [turn]);
        return Err(AdapterFailure);
      }
      var answer := Message(db.mint(t + 1), dto.conversationId, reply.value, true, t + 1);
      assert Created(before, t, db.mint, dto, ai) == (Ok(turn), before + [turn, answer]);
      Save(answer);
      assert db.messages == before + [turn, answer];
      r := Ok(turn);
    }

    /** The repository `save` of a new message: the row is stamped with the
        current tick and keyed by it, and appended. */
    method Save(m: Message)
      requires db.Valid()
      requires m.createdAt == db.clock && m.id == db.mint(db.clock)
      requires ConversationExists(db.conversations, m.conversationId)
      modifies db
      ensures db.Valid()
      ensures db.conversations == old(db.conversations)
      ensures db.messages == old(db.messages) + [m] && db.clock == old(db.clock) + 1
    {
      AppendMessageConsistent(db.conversations, db.messages, db.clock, db.mint, m);
      db.messages := db.messages + [m];
      db.clock := db.clock + 1;
    }

    /** The conversation lookup `create` starts with. */
    function FindConversation(id: string): (r: Result<Conversation>)
      reads db
      ensures r.Ok? <==> ConversationExists(db.conversations, id)
    {
      match IndexOfConversation(db.conversations, id)
      case None => Err(NotFound)
      case Some(i) => Ok(db.conversations[i])
    }

    /** `update`: NotFound for an unknown id and BadRequest for an AI
        message, both saving nothing. Otherwise the content is overwritten
        and saved; with `regenerate`, the next AI reply (if any) gets the
        adapter's new answer, in place. No message is created or deleted. */
    method Update(id: string, content: string, regenerate: bool, ai: AiAdapter) returns (r: Result<Message>)
      requires db.Valid()
      modifies db
      ensures db.Valid()
      ensures db.conversations == old(db.conversations) && db.clock == old(db.clock)
      ensures |db.messages| == |old(db.messages)|
      ensures forall k :: 0 <= k < |db.messages| ==> db.messages[k] == old(db.messages)[k].(content := db.messages[k].content)
      ensures IndexOfMessage(old(db.messages), id).None? ==> r == Err(NotFound) && db.messages == old(db.messages)
      ensures IndexOfMessage(old(db.messages), id).Some? ==>
        var i := IndexOfMessage(old(db.messages), id).value;
        var target := old(db.messages)[i];
        var edited := target.(content := content);
        var after := old(db.messages)[i := edited];
        if target.isFromAi then
          r == Err(BadRequest) && db.messages == old(db.messages)
        else if !regenerate then
          r == Ok(edited) && db.messages == after
        else
          match NextAiReply(after, i)
          case None => r == Ok(edited) && db.messages == after
          case Some(j) =>
            match ai(content, History(after, target.conversationId, Some(id)))
            case None => r == Err(AdapterFailure) && db.messages == after
            case Some(reply) => r == Ok(edited) && db.messages == after[j := after[j].(content := reply)]
    {
      var found := IndexOfMessage(db.messages, id);
      if found.None? {
        return Err(NotFound);
      }
      var i := found.value;
      var target := db.messages[i];
      if target.isFromAi {
        return Err(BadRequest);
      }
      var edited := target.(content := content);
      RewriteMessageConsistent(db.conversations, db.messages, db.clock, db.mint, i, content);
      db.messages := db.messages[i := edited];
      assert db.messages == old(db.messages)[i := edited] && db.clock == old(db.clock);
      r := Ok(edited);
      if regenerate {
        var next := NextAiReply(db.messages, i);
        if next.Some? {
          var history := History(db.messages, target.conversationId, Some(id));
          var reply := ai(content, history);
          if reply.None? {
            return Err(AdapterFailure);
          }
          var j := next.value;
          RewriteMessageConsistent(db.conversations, db.messages, db.clock, db.mint, j, reply.value);
          db.messages := db.messages[j := db.messages[j].(content := reply.value)];
        }
      }
    }

    /** `remove`: NotFound for an unknown id; otherwise exactly that
        message is deleted. */
    method Remove(id: string) returns (r: Result<()>)
      requires db.Valid()
      modifies db
      ensures db.Valid()
      ensures db.conversations == old(db.conversations) && db.clock == old(db.clock)
      ensures IndexOfMessage(old(db.messages), id).None? ==> r == Err(NotFound) && db.messages == old(db.messages)
      ensures IndexOfMessage(old(db.messages), id).Some? ==>
        var i := IndexOfMessage(old(db.messages), id).value;
        r == Ok(()) && db.messages == old(db.messages)[..i] + old(db.messages)[i + 1..]
    {
      var found := IndexOfMessage(db.messages, id);
      if found.None? {
        return Err(NotFound);
      }
      var i := found.value;
      RemoveMessageConsistent(db.conversations, db.messages, db.clock, db.mint, i);
      db.messages := db.messages[..i] + db.messages[i + 1..];
      r := Ok(());
    }
  }
}
