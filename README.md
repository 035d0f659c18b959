# MyGPT core, modelled in Dafny

MyGPT is a chat application. A NestJS server stores users, conversations and
messages, asks an AI adapter for a reply to every user turn and lets an
owner share a conversation through an expiring link. A Vue client guards its
pages by session and validates its forms. This project models the parts of
that system that make decisions:

- **Message exchange** (`message_service.dfy`, module `Messages`). Appending a
  turn and the AI's reply. Editing a user turn, with optional in-place
  regeneration of the next AI reply. Deletion, keyword search, and the
  labelled history handed to the adapter.
- **Conversation lifecycle** (`conversation_service.dfy`, module
  `Conversations`). Create, update and delete; the owner's listing and search,
  most recently updated first; the share-link state machine (share, resolve
  with expiry, revoke).
- **Shared store** (`database.dfy`, module `Database`). Both tables live in one
  `Store` object whose invariant `Consistent` holds the tables' constraints:
  - unique primary keys;
  - unique non-null share links;
  - every message belongs to a stored conversation, deleted with it by cascade;
  - rows in creation order.

  Every state change comes with a lemma that keeps the invariant.
- **HTTP access checks** (`access.dfy`, `conversation_controller.dfy`,
  `message_controller.dfy`). There are three access levels:
  - Manage: the owner only;
  - View: the owner, or anyone when the conversation is public;
  - Read: the owner, a public conversation, or a conversation with a share link.

  Each controller method looks the conversation up first, then checks the
  level, then delegates to the service. A refused request leaves the store
  unchanged.
- **Accounts and sessions** (`user_service.dfy`, `auth_service.dfy`,
  `local_strategy.dfy`, `session_serializer.dfy`, `js_values.dfy`):
  - registration, with email and pseudo uniqueness;
  - the credential check;
  - the passport strategy's shape check on an untyped JavaScript value;
  - the session serializer.
- **Validation rules** (`login_dto.dfy`, `update_pseudo_dto.dfy`,
  `user_errors.dfy`):
  - the login password rule (length measured in code points, and the regular
    expression with its three lookaheads);
  - the pseudo rule;
  - the client's email pattern, message texts and API error table.
- **Client routing** (`routes.dfy`). The route table with its meta flags,
  path matching, and the `beforeEach` navigation guard.

Identifiers, timestamps, tokens and foreign results are parameters:

- A store's primary keys come from an injective key generator `mint`. The
  row created at tick `t` of the store's clock has id `mint(t)`.
- The AI adapter is a function parameter that may fail (`AiAdapter`).
- The share token is a parameter constrained to 16 lower-case hex digits.
- bcrypt's hash and compare are oracle parameters (`Hasher`, `Comparer`).
- The current time is a `now` parameter.

Where the design documents and the code disagree, the model follows the
code:

- A share link expires strictly after `shareExpiresAt`.
- Regeneration rewrites the earliest later AI reply in place; it deletes
  nothing.
- A failing AI adapter is not replaced by a fallback reply. The error
  propagates, and the user turn already saved stays saved.
- The history cut compares message ids as strings, not creation times.
  `Messages.HistoryCutFollowsIdsNotTime` exhibits the difference.
- There is no fork (copy of a shared conversation) and no `sharedFrom` field.
- `MessageController.update` passes on `regenerateAi === true`. `RegenerateFlag` models that
  test on the value the method receives. Over HTTP, the global validation pipe
  (`server/src/main.ts:12-21`, with transformation and implicit conversion)
  first turns the query text into a boolean.

## Model

| member | source | states |
|---|---|---|
| Database.IdsUnique | server/src/conversation/entities/conversation.entity.ts:21 | under the store invariant, no two conversations and no two messages share a primary key |
| Database.InsertConversationConsistent | server/src/conversation/conversation.service.ts:25-32 | inserting a fresh, unshared conversation stamped with the current tick keeps the store invariant |
| Database.ReplaceConversationConsistent | server/src/conversation/entities/conversation.entity.ts:56-57 | saving a conversation row with the same key, whose share link no other row holds, keeps the invariant (including unique share links) |
| Database.RemoveConversationConsistent | server/src/message/entities/message.entity.ts:29-32 | deleting a conversation together with all its messages (the cascade) keeps the invariant, including that every message has its conversation |
| Database.AppendMessageConsistent | server/src/message/message.service.ts:31-32 | appending a message of a stored conversation, stamped with the current tick, keeps the invariant |
| Database.RewriteMessageConsistent | server/src/message/message.service.ts:94-95 | overwriting a message's content keeps the invariant |
| Database.RemoveMessageConsistent | server/src/message/message.service.ts:135-138 | deleting one message keeps the invariant |
| Conversations.FindOne | server/src/conversation/conversation.service.ts:42-53 | succeeds exactly when a conversation has the id and returns it; NotFound otherwise |
| Conversations.FindByShareLink | server/src/conversation/conversation.service.ts:55-74 | NotFound exactly when no row holds the token; BadRequest only for an expired holder; otherwise a row holding the token that is not expired |
| Conversations.ShareLinkResolution | server/src/conversation/conversation.service.ts:66-71 | with unique links, a stored conversation's link resolves to that conversation up to and including its expiry instant and to BadRequest strictly after it |
| Conversations.ExpiryIsPermanent | server/src/conversation/conversation.service.ts:66-71 | a link refused as expired at some time is refused at every later time |
| Conversations.InsertByRecencyPermutes | server/src/conversation/conversation.service.ts:38 | one ordering step adds exactly the inserted row to the multiset of rows |
| Conversations.InsertByRecencySorted | server/src/conversation/conversation.service.ts:38 | one ordering step keeps a most-recent-first list most-recent-first |
| Conversations.ByRecency | server/src/conversation/conversation.service.ts:38 | `updatedAt DESC`: the result is a permutation of the input, sorted most recently updated first |
| Conversations.FindAll | server/src/conversation/conversation.service.ts:34-40 | exactly the user's conversations (all of them when the user id is falsy), each as many times as it is stored, most recently updated first |
| Conversations.Search | server/src/conversation/conversation.service.ts:93-116 | exactly the user's conversations whose name or one of whose messages contains the keyword case-insensitively, each as many times as it is stored, most recently updated first |
| Conversations.Applied | server/src/conversation/conversation.service.ts:83-85 | each field the DTO carries (name, owner, visibility) is overwritten with it, each absent one is kept, and every other column is unchanged |
| Conversations.Persist | server/src/conversation/entities/conversation.entity.ts:77 | saving an unchanged row leaves it as it was; saving a changed row stores it with `updatedAt` stamped `now` and every other column as given |
| Conversations.Shared | server/src/conversation/conversation.service.ts:125-132 | an existing link is kept and a missing one becomes the token; the expiry is replaced only when one is supplied; no other field changes |
| Conversations.ShareIsIdempotent | server/src/conversation/conversation.service.ts:125-139 | sharing again (no expiry, or the same one) returns the same link and changes nothing, whatever token is drawn |
| Conversations.Revoked | server/src/conversation/conversation.service.ts:145-148 | revoke clears both share fields, so the row has no link, and changes nothing else |
| Conversations.ShareAfterRevokeMints | server/src/conversation/conversation.service.ts:125-148 | sharing after a revoke installs the newly drawn token, not the old link |
| Conversations.SharedLinkFree | server/src/conversation/entities/conversation.entity.ts:56-57 | when a token is minted only if no row holds it, the saved link is held by no other row |
| Conversations.ConversationService.Create | server/src/conversation/conversation.service.ts:25-32 | appends one new unshared conversation with the DTO's name and owner, public exactly when the DTO says `isPublic: true`, keyed `mint` of the current tick and created and updated at that tick; the key is fresh, messages are unchanged, the invariant is kept, and the new row heads its owner's listing |
| Conversations.NewestHeadsListing | server/src/conversation/conversation.service.ts:34-40 | a row updated after every stored row comes first in its owner's most-recent-first listing |
| Conversations.ConversationService.Update | server/src/conversation/conversation.service.ts:76-86 | NotFound and no change for an unknown id; otherwise the row becomes the DTO applied to it (its `updatedAt` stamped only when a column changed) and is returned, and the clock advances by one |
| Conversations.ConversationService.Remove | server/src/conversation/conversation.service.ts:88-91 | NotFound and no change for an unknown id; otherwise exactly that row and all its messages are deleted; the clock never moves |
| Conversations.ConversationService.ShareConversation | server/src/conversation/conversation.service.ts:118-140 | NotFound for an unknown id; a minted token another row holds is a unique-constraint failure with no change; otherwise the row is saved shared, its link returned and the clock advanced by one |
| Conversations.ConversationService.RevokeShare | server/src/conversation/conversation.service.ts:142-149 | NotFound for an unknown id; otherwise only that row's share fields are cleared and the clock advances by one |
| Messages.FindOne | server/src/message/message.service.ts:68-79 | NotFound exactly when no message has the id; otherwise that message |
| Messages.FindAll | server/src/message/message.service.ts:59-66 | exactly the conversation's messages (all when the id is falsy), in creation order |
| Messages.SearchInConversation | server/src/message/message.service.ts:140-150 | exactly the conversation's messages containing the keyword case-insensitively, in creation order |
| Messages.History | server/src/message/message.service.ts:152-171 | one line per selected message, in order: `AI: ` exactly for an AI message and `User: ` exactly for a user message, followed by its content unchanged |
| Messages.LabelsShowRoles | server/src/message/message.service.ts:167-170 | every entry of the labelled list names its message's author and carries its content unchanged |
| Messages.Labels | server/src/message/message.service.ts:167-170 | one entry per message, entry k labelling message k |
| Messages.Transcript | server/src/message/message.service.ts:156-165 | the selected messages are exactly the conversation's, cut at the id bound when it is truthy, in creation order |
| Messages.LabelShowsRole | server/src/message/message.service.ts:168-169 | an entry starts with `AI: ` exactly for an AI message and with `User: ` exactly for a user message, followed by the content unchanged |
| Messages.HistoryAfterAppend | server/src/message/message.service.ts:32-39 | the history read right after saving a turn is the previous history followed by that turn's entry |
| Messages.TranscriptCutIsPrefix | server/src/message/message.service.ts:161-163 | when ids increase with creation order, the id cut at message x is a prefix of the full transcript ending at x |
| Messages.HistoryCutIsPrefix | server/src/message/message.service.ts:152-171 | the same for the labelled history |
| Messages.HistoryCutFollowsIdsNotTime | server/src/message/message.service.ts:161-163 | the cut compares ids, not times: a reply created later but with a smaller id stays in the history |
| Messages.NextAiReply | server/src/message/message.service.ts:100-111 | the earliest AI message of the same conversation created strictly after the edited one, or none when no such message exists |
| Messages.NextAiReplyIsAdjacent | server/src/message/message.service.ts:100-111 | in a chronological store the reply found comes after the edited message and no AI message of the conversation lies between them |
| Messages.Created | server/src/message/message.service.ts:26-57 | existing rows kept; the turn is appended with the DTO's content, conversation and author; an AI turn succeeds with that one row; for a user turn the adapter, given the turn and the history including it, decides: a failure leaves one row and answers AdapterFailure, a reply is saved as a second, AI-authored row in the same conversation and the saved turn is answered |
| Messages.MessageService.Create | server/src/message/message.service.ts:26-57 | NotFound with nothing saved for an unknown conversation; otherwise the answer and the new message table are those of `Created`; conversations unchanged; invariant kept |
| Messages.MessageService.Save | server/src/message/message.service.ts:31-32 | appends exactly the given row and advances the clock |
| Messages.MessageService.FindConversation | server/src/message/message.service.ts:28 | succeeds exactly when the conversation exists |
| Messages.MessageService.Update | server/src/message/message.service.ts:81-133 | NotFound for an unknown id; BadRequest for an AI message, with no change; otherwise only content changes: the target's, and with regenerate the next AI reply's (adapter given the history cut at the target); no message created or deleted |
| Messages.MessageService.Remove | server/src/message/message.service.ts:135-138 | NotFound and no change for an unknown id; otherwise exactly that message is deleted |
| Access.Allows | server/src/conversation/conversation.controller.ts:142-175 | the owner passes every level; Manage admits only the owner, View adds public conversations, Read adds conversations with a share link |
| Access.AuthorizeDecides | server/src/conversation/conversation.controller.ts:139-146 | with unique ids, the check on a stored conversation is that conversation when the level admits the requester and BadRequest when not |
| Access.Authorize | server/src/conversation/conversation.controller.ts:139-146 | NotFound exactly when the conversation is unknown; BadRequest only when it exists and the requester fails the level's check; otherwise that conversation |
| Access.LevelsNest | server/src/message/message.controller.ts:68-77 | whoever may manage may view, and whoever may view may read |
| Access.AuthorizeMonotone | server/src/message/message.controller.ts:100-111 | passing a stricter check yields the same answer at the looser level |
| Access.OwnerDecides | server/src/conversation/conversation.controller.ts:166-175 | with unique ids, the owner passes every level and anyone else fails the owner check with BadRequest |
| Access.ExpiredShareStillReadable | server/src/message/message.controller.ts:100-111 | an expired link is refused by the share-link route, yet the conversation's messages stay readable to anyone |
| ConversationApi.FindAllShowsOnlyOwn | server/src/conversation/conversation.controller.ts:77-79 | the listing holds exactly the requester's own conversations |
| ConversationApi.SearchShowsOnlyOwn | server/src/conversation/conversation.controller.ts:96-105 | the search returns only the requester's own conversations |
| ConversationApi.ConversationController.Create | server/src/conversation/conversation.controller.ts:58-64 | the new conversation's owner is the requester, whatever the body says; it is keyed `mint` of the current tick, created and updated at that tick, the clock advances by one, and the row heads the requester's listing |
| ConversationApi.ConversationController.FindOne | server/src/conversation/conversation.controller.ts:135-146 | NotFound exactly when no conversation has the id; a stored conversation is returned when the requester owns it or it is public, and BadRequest otherwise |
| ConversationApi.ConversationController.Update | server/src/conversation/conversation.controller.ts:161-175 | a failed owner check returns its error with the store unchanged; otherwise the service's update |
| ConversationApi.ConversationController.Remove | server/src/conversation/conversation.controller.ts:187-200 | a failed owner check returns its error with the store unchanged; otherwise the row and its messages are deleted |
| ConversationApi.ConversationController.ShareConversation | server/src/conversation/conversation.controller.ts:215-229 | a failed owner check returns its error with the store unchanged; otherwise the service's share |
| ConversationApi.ConversationController.RevokeShare | server/src/conversation/conversation.controller.ts:241-254 | a failed owner check returns its error with the store unchanged; otherwise the service's revoke |
| MessageApi.RegenerateFlag | server/src/message/message.controller.ts:230-234 | on the value the method receives, regeneration is requested exactly when it is the boolean true; a string never requests it |
| MessageApi.AuthorizeMessage | server/src/message/message.controller.ts:175-189 | NotFound for an unknown message or a message whose conversation is gone, and only then; success only for a stored message whose conversation passes the level's check; BadRequest only when a stored message's conversation fails it |
| MessageApi.AuthorizeMessageDecides | server/src/message/message.controller.ts:175-189 | with unique ids, the check on a stored message of a stored conversation is the message when the level admits the requester and BadRequest when not |
| MessageApi.ReadDecides | server/src/message/message.controller.ts:171-189 | in a consistent store, reading a message is NotFound exactly when no message has the id, and otherwise the message or BadRequest as the owner, public and share-link tests decide |
| MessageApi.OwnerMayEditOwnMessages | server/src/message/message.controller.ts:218-229 | with unique ids, a conversation's owner may read and edit each of its messages |
| MessageApi.ShareLinkDoesNotGrantPosting | server/src/message/message.controller.ts:68-77 | a share link lets another user read a private conversation but not post to it |
| MessageApi.MessageController.Create | server/src/message/message.controller.ts:63-77 | a failed view check returns its error with the store unchanged; otherwise the service's create |
| MessageApi.MessageController.FindAll | server/src/message/message.controller.ts:95-111 | fails exactly when the read check fails, with its error; otherwise exactly the conversation's messages, in creation order |
| MessageApi.MessageController.Search | server/src/message/message.controller.ts:134-156 | fails exactly when the read check fails; otherwise exactly the conversation's messages containing the keyword, in creation order |
| MessageApi.MessageController.FindOne | server/src/message/message.controller.ts:171-189 | NotFound exactly when no message has the id; for a stored message, the message when the requester owns its conversation or it is public or shared, and BadRequest otherwise |
| MessageApi.MessageController.Update | server/src/message/message.controller.ts:212-234 | a failed owner check returns its error with the store unchanged; otherwise the service's update with the `=== true` flag |
| MessageApi.MessageController.Remove | server/src/message/message.controller.ts:246-262 | a failed owner check returns its error with the store unchanged; otherwise exactly that message is deleted |
| Users.FindByEmail | server/src/user/user.service.ts:20-32 | succeeds exactly when some user has the email, returning one; NotFound otherwise |
| Users.FindOne | server/src/user/user.service.ts:82-92 | succeeds exactly when some user has the id, returning one; NotFound otherwise |
| Users.InsertKeepsRegistry | server/src/user/entities/user.entity.ts:22-29 | inserting a user whose email and pseudo are both free keeps emails and pseudos unique |
| Users.FindByEmailAfterInsert | server/src/user/user.service.ts:53-73 | a newly registered user is found by its email |
| Users.UserService.Register | server/src/user/user.service.ts:34-80 | email conflict first, then pseudo conflict, with no change; a failed hash or insert is InternalServerError with no change; otherwise exactly one row with the hash (not the password) and the success message |
| Users.RegistryIsUnique | server/src/user/user.service.ts:36-51 | in a valid registry two distinct users differ in both email and pseudo |
| Auth.ValidateUser | server/src/auth/auth.service.ts:12-37 | every failure is Unauthorized; an unknown email fails; success only for a stored user with a non-empty password that bcrypt accepts, projected without the password |
| Auth.ValidateUserDecision | server/src/auth/auth.service.ts:12-30 | with unique emails: success, with that user's projection, exactly when the stored password is non-empty and compare is true |
| Auth.EmptyPasswordSkipsCompare | server/src/auth/auth.service.ts:16-18 | an empty stored password is refused whatever the comparer says |
| Auth.GetProfile | server/src/auth/auth.service.ts:43-50 | NotFound exactly when no user has the id; otherwise that user's pseudo and email only |
| LocalStrategy.IsValidUser | server/src/auth/strategies/local.strategy.ts:12-22 | true exactly for an object whose `id`, `email` and `pseudo` properties are all strings |
| LocalStrategy.Validate | server/src/auth/strategies/local.strategy.ts:32-60 | every failure is Unauthorized; success exactly for a resolved, well-shaped value, copying its id, email and pseudo |
| LocalStrategy.StrategyKeepsDecision | server/src/auth/strategies/local.strategy.ts:32-60 | on what the credential check produces, the strategy passes on the same identity or Unauthorized |
| LocalStrategy.ShapesRefused | server/src/auth/strategies/local.strategy.ts:12-22 | strings, arrays, null and objects missing a field are refused |
| Session.SerializeUser | server/src/auth/session.serializer.ts:18-36 | an error exactly when the user is missing or a field is empty, and then no payload; otherwise exactly the three fields |
| Session.DeserializeUser | server/src/auth/session.serializer.ts:38-47 | passes the stored payload back as the user with no error; for a complete payload, serializing that user again gives the same payload |
| Session.SessionRoundTrip | server/src/auth/session.serializer.ts:28-47 | serializing then deserializing a complete user yields the same identity with no error |
| Session.EmptyPseudoPassesStrategyNotSession | server/src/auth/session.serializer.ts:23-26 | an identity with an empty pseudo passes the strategy but is refused by the serializer |
| Routes.GuestOnlyRoutes | client/src/routes/routes.ts:14-32 | fact about the constant route table: exactly `/login` and `/register` are for guests only |
| Routes.ProtectedRoutes | client/src/routes/routes.ts:34-61 | fact about the constant route table: exactly `/profile`, `/chat` and `/chat/:id` need a session, and no route has both flags |
| Routes.RouteTableShape | client/src/routes/routes.ts:63-73 | fact about the constant route table: no route has more than two segments, and the shared-conversation route is absent |
| Routes.ChatIdResolves | client/src/routes/routes.ts:52-61 | fact about the constant route table: a two-segment path under `chat` with a non-empty second segment resolves to `/chat/:id` |
| Routes.BeforeEach | client/src/routes/index.ts:10-38 | no session on a protected route: login, carrying the full target only under `/chat/shared/`; signed in on a guest page: the truthy redirect query, else home; otherwise proceed |
| Routes.GuardSeparatesAudiences | client/src/routes/index.ts:16-25 | a visitor without a session never reaches a protected route and is sent only to the login page |
| Routes.SharedLinksMatchNoRoute | client/src/routes/index.ts:18-22 | `/chat/shared/<token>` matches no route, so the guard lets every visitor through and the redirect-with-target branch is never taken for it |
| Routes.BareSharedPathRedirects | client/src/routes/index.ts:18-22 | the bare `/chat/shared/` is read as `/chat/:id` and is the path that sends a visitor without a session to login with the target |
| LoginValidation.PasswordPatternMeans | server/src/auth/dto/login.dto.ts:28 | the pattern matches exactly a one-line string with a digit, an upper-case letter and a special character |
| LoginValidation.MeasuredLength | server/src/auth/dto/login.dto.ts:24-26 | the measured length is the number of code points minus the occurrences of U+FE0E and U+FE0F, so it never exceeds the length and equals it when neither occurs |
| LoginValidation.FullLength | server/src/auth/dto/login.dto.ts:24-26 | a text without presentation selectors measures its full length |
| LoginValidation.PasswordViolations | server/src/auth/dto/login.dto.ts:23-34 | no rule broken exactly for a string of measured length 10 to 50 matching the pattern; a non-string breaks type, length and pattern; the required rule breaks exactly on empty, null or undefined |
| LoginValidation.AcceptedPassword | server/src/auth/dto/login.dto.ts:23-34 | an accepted password is a one-line string of at least ten characters with a digit, an upper-case letter and a special character |
| LoginValidation.ExamplePasswordAccepted | server/src/auth/dto/login.dto.ts:21 | example: the documented example password breaks no rule |
| LoginValidation.LowerCaseExampleRefused | server/src/auth/dto/login.dto.ts:27-33 | example: the example with its capital lowered breaks the pattern rule and no other |
| PseudoValidation.PseudoViolations | server/src/user/dto/update-user.dto.ts:9-13 | no rule broken exactly for a string of measured length 3 to 20; a non-string breaks type and length; the required rule breaks exactly on empty, null or undefined |
| ClientErrors.MessagesMatchServer | client/src/utils/errors/auth/users.ts:2-30 | fact about the constant message texts: the client's required, pattern, length and type texts are the server's, word for word |
| ClientErrors.PseudoMessageStatesBounds | client/src/utils/errors/auth/users.ts:24 | the pseudo length text spells out the server's bounds 3 and 20 |
| ClientErrors.PasswordMessageStatesMinimum | client/src/utils/errors/auth/users.ts:25 | the password length text spells out the server's minimum 10 |
| ClientErrors.CheckEmailMeans | client/src/utils/errors/auth/users.ts:15 | the direct decision (first `@`, last `.`) accepts exactly the strings the email pattern matches |
| ClientErrors.EmailAccepted | client/src/utils/errors/auth/users.ts:15 | example: an ordinary address matches the pattern |
| ClientErrors.OneLetterEndingRefused | client/src/utils/errors/auth/users.ts:15 | example: an address ending in a one-letter suffix does not match |
| ClientErrors.DotlessDomainRefused | client/src/utils/errors/auth/users.ts:15 | example: an address without a dot after the `@` does not match |
| ClientErrors.ApiErrorMessage | client/src/utils/errors/auth/users.ts:31-36 | 400, 409 and 500 get their fixed messages, and exactly the other statuses get the fallback |
| ClientErrors.RegistrationErrorsExplained | client/src/utils/errors/auth/users.ts:31-36 | every error registration can end with has its own message, and both conflicts share one |

## Left out

- HTTP and Nest plumbing (decorators, Swagger, guards, modules, the bootstrap in `server/src/main.ts`): the controllers are modelled as access checks plus delegation, taking the requester's id as a parameter.
- The global validation pipe's whitelisting and type conversion (`server/src/main.ts:12-21`) are library code. Request bodies arrive already shaped. The `regenerateAi` query value reaches `MessageApi.RegenerateFlag` as the method receives it, after the pipe has converted it; the conversion of the query text `'true'` into the boolean is not modelled. The strategy's input stays an untyped value.
- `IsEmail`, `IsUUID` and `IsDateString` on the DTOs: the email is only required to be present, and the ids and dates are taken as given.
- The AI adapter (`server/src/infrastructure/adapters/GeminiAiAdapter.ts`): a function parameter that returns the reply or fails.
- `randomBytes`: the share token is a parameter of 16 lower-case hex digits. A token that another row already holds hits the column's unique constraint.
- bcrypt `hash` and `compare`: oracle parameters. A save failure during registration is the `inserted` flag.
- `new Date()`: passed in as `now`. The store's timestamps are ticks of a monotone clock, of which only the order matters.
- `login`: its constant reply is `Auth.LoginMessage`.
- `logout`: destroying the session and clearing the sha256-named cookie are side effects on foreign objects.
- `document.title`, route titles and layouts, and the Pinia store: the guard takes `isAuthenticated` as a parameter.
- Routes.MetaOf: models the router's matching only for the paths it names: non-strict trailing slash and case-insensitive literals. Percent-decoding and an array-valued `redirect` query are not modelled.
- `ILike` matching: case-insensitive substring matching with ASCII case folding. SQL wildcards in the keyword and locale rules are not modelled.
- The message's `updatedAt` column: nothing in the core reads it.
- The conversation's relation to its user row: the owner is the `userId` string.
- Exception message texts: each exception is its kind (`NotFound`, `BadRequest`, …).
- The catch branch of `deserializeUser` (`server/src/auth/session.serializer.ts:42-46`): it runs only when passport's own `done` callback throws, which is foreign code, so the model has no error path there.
- Behaviour that only the tests describe:
  - saving or forking a shared conversation, and `sharedFrom`;
  - `updatePseudo` and `deleteAccount`;
  - deleting downstream messages on regeneration.
- A fallback AI reply: the code has none.
- MessageApi.MessageController.FindAll: a request without a `conversationId` query is not modelled. The controller parameter is always a string here. In the code the absent query stays `undefined` (`server/src/message/message.controller.ts:95-98`) and reaches `conversationService.findOne` as an unset `where` condition, whose meaning is the ORM's and is not part of this model. `Messages.FindAll` models the service's falsy branch on its own. `MessageApi.MessageController.Search` takes the same query and leaves out the same case.
- The place where the client looks up `apiErrors` is not part of this model. `ClientErrors.ApiErrorMessage` is the table lookup with its fallback.
- The client's name-length text (1 to 50 characters) matches no rule in the modelled server files.
- The Playwright tests and random generators under `client/tests` and `client/utils`.
