# Customer-support chat: a Dafny model

This project models the request path of a small customer-support chat
widget. A browser page sends each user message to a chat endpoint. The
endpoint:

- rate-limits the caller by address;
- stores the message in a conversation;
- replays part of the conversation, with a fixed system prompt, to a hosted
  language model;
- stores the model's reply and returns it with the conversation's id.

The same endpoint returns a conversation's full transcript (GET) and deletes
a conversation with its messages (DELETE). The page keeps the transcript, a
current session, and a sidebar list of past sessions.

Modules, one per file:

- `Wrappers`: `Option` and `Result`.
- `Sequences`: order-preserving selection (`IsSubsequence`) and taking a
  prefix (`Take`), which serves both SQL's `LIMIT` and `slice(0, n)`.
- `JsText`: JavaScript's `trim` with its exact whitespace set, and the truthiness of
  strings.
- `RateLimit`: the fixed-window limiter. `Decide` is one call on the map. The
  `RateLimiter` class holds the module-level map, and its `Check` method
  updates it.
- `Schema`: the rows of the `conversations` and `messages` tables, and what
  a consistent database is: keys unique, and every message references an
  existing conversation.
- `Db`: the queries and writes the route issues, on values, plus the `Store`
  class whose methods perform them in place. Writes that break a key or a
  reference fail, as the database would reject them; the `Store` reports
  the failure to its caller, and only POST's catch turns it into a 500. `ON DELETE CASCADE` is modelled. `ORDER BY
  created_at` is a stable sort.
- `Groq`: the message list sent to the model and the fallback for empty
  content.
- `ChatRoute`: POST, GET and DELETE. `PostOutcome` and `Exchange` specify
  POST on values; the `Post` method runs the statements one at a time
  against the `Store` and the `RateLimiter`.
- `ChatPage`: the page's state as a class (`Page`), with the pure helpers for
  the sidebar list.

Inputs that come from outside the code are parameters:

- the clock reading `now`: one reading serves the limiter and every row one
  POST writes;
- the random keys Postgres would generate (`FreshIds`);
- the hosted model, a function `Completer` from the message list to either a
  failed call or a list of choices, each with optional content;
- how the page's `fetch` ended (`FetchOutcome`).

Behaviours of the code that are easy to misread:

- **History is the earliest ten messages, not the latest ten.** The query is
  `orderBy(createdAt).limit(10)`, ascending. Once a conversation holds more
  than ten messages, the model receives its first ten and never the newer
  ones (`ChatRoute.ContextHistoryIsEarliest`).
- **The history includes the message being answered.** The user's message
  is stored before the history is read. When it falls within the first ten,
  it is in the history and is then appended again as the final user entry.
  On a first turn the model receives it twice
  (`ChatRoute.FirstTurnSendsMessageTwice`).
- **`sender` is not restricted to `user`/`ai` by the schema.** It is a plain
  required text column. Any sender other than `"user"` is given the
  assistant role.
- **Error replies have no `sessionId`.** The 429, 400 and 500 bodies carry
  only `reply`. The page still runs `setSessionId(data.sessionId)` and its
  sidebar update on them. The current session therefore becomes `undefined`,
  and the sidebar gains an entry without an id. The next message starts a
  new conversation (`ChatPage.ErrorReplyForgetsSession`). Client-side ids
  are modelled as `JsString` (string, `null` or `undefined`) for this
  reason.

## Model

| member | source | states |
|---|---|---|
| RateLimit.Decide | app/lib/rate-limit.ts:11-31 | one call touches only the caller's entry (every other identity keeps its entry, the key set gains only the caller); a denied call leaves the map unchanged; counts stay within 1..20 |
| RateLimit.FirstCallOpensWindow | app/lib/rate-limit.ts:15-18 | an identity with no entry is admitted and its entry becomes count 1 with the window starting now |
| RateLimit.ExpiredWindowReopens | app/lib/rate-limit.ts:20-23 | strictly more than 60000 ms after the window began, the call is admitted and the entry resets to count 1 at now, whatever the count; at exactly 60000 ms a full window still denies |
| RateLimit.InsideWindowCounts | app/lib/rate-limit.ts:25-30 | inside the window a call is admitted iff the count is below 20; admission adds exactly one and keeps the window start; denial changes nothing |
| RateLimit.RunInsideWindow | app/lib/rate-limit.ts:20-30 | over successive calls inside one window from an entry with count c, call i is admitted exactly when c + i < 20 |
| RateLimit.CapWithinWindow | app/lib/rate-limit.ts:15-30 | from an identity's first call, of the calls within one window of it the first 20 are admitted and the 21st and later are denied |
| RateLimit.RateLimiter.Check | app/lib/rate-limit.ts:9-31 | updates the shared map in place exactly as `Decide` says and answers its admission; the count range invariant is kept |
| Db.OfConversation | app/api/chat/route.ts:60-63 | the `WHERE conversation_id = …` filter returns no more rows than the table holds |
| Db.OfConversationMembers | app/api/chat/route.ts:60-63 | the filter keeps exactly the rows of that conversation (both directions), in table order |
| Db.NotOfConversation | app/lib/schema.ts:21-23 | what the cascade keeps: exactly the rows of other conversations, in table order |
| Db.OfConversationAppend | app/api/chat/route.ts:54-63 | a row appended to the table is the last row its conversation's filter returns and does not change other filters |
| Db.NotOfConversationUnique | app/lib/schema.ts:20-23 | the cascade keeps message keys unique |
| Db.NotOfConversationTwice | app/lib/schema.ts:23 | filtering out a conversation twice is filtering it once |
| Db.InsertByCreatedAt | app/api/chat/route.ts:64 | one step of the ordering: length grows by one and the rows are those of the input plus the new one |
| Db.InsertKeepsOrder | app/api/chat/route.ts:64 | inserting into rows ordered by `createdAt` keeps them ordered |
| Db.OrderByCreatedAt | app/api/chat/route.ts:64 | `ORDER BY created_at` returns a permutation of its input: same length, same multiset of rows |
| Db.OrderByCreatedAtSorted | app/api/chat/route.ts:64 | what `ORDER BY created_at` returns is in ascending `createdAt` order |
| Db.OrderedRowsStay | app/api/chat/route.ts:64 | rows already ordered come back in their own order, so ties keep insertion order |
| Db.OfConversationKeepsOrder | app/api/chat/route.ts:60-64 | the conversation filter of ordered rows is ordered |
| Db.PrefixIsEarliest | app/api/chat/route.ts:64-65 | of ordered rows, none left out by a `LIMIT` is older than one kept |
| Db.Select | app/api/chat/route.ts:60-65 | the query returns rows of that conversation only, in ascending time order; without a limit it returns each of them exactly once; with `LIMIT n`, min(n, count) of them, none twice |
| Sequences.Take | app/api/chat/route.ts:65 | `LIMIT n` (and the page's `slice(0, n)`) returns a prefix of length min(n, length) |
| Db.AddConversation | app/lib/schema.ts:11-14 | the insert succeeds exactly when the key is not taken; it adds exactly that key with the row `Conversation(id, now)`, keeps every existing row as it was, leaves the messages alone and keeps the database consistent |
| Db.AddMessage | app/lib/schema.ts:19-29 | the insert succeeds exactly when the key is free and the referenced conversation exists; it then appends the row after the others, leaves the conversations alone and keeps the database consistent |
| Db.CascadeDelete | app/lib/schema.ts:21-23 | deleting a conversation keeps the database consistent |
| Db.CascadeDeleteRemovesExactly | app/lib/schema.ts:23 | after the delete the conversation keys are the old ones minus the deleted id, each kept row unchanged; the messages are exactly those of other conversations, in order, each kept once (kept plus deleted rows add up to the old table); none of the deleted one's is left |
| Db.FilterPartition | app/lib/schema.ts:21-23 | every message row is either kept by the cascade or belongs to the deleted conversation: the two counts add up to the table's |
| Db.CascadeDeleteIdempotent | app/api/chat/route.ts:125-127 | deleting the same conversation again changes nothing |
| Db.Store.InsertConversation | app/api/chat/route.ts:46-49 | succeeds exactly when `AddConversation` does, and the tables become its result; unchanged on failure |
| Db.Store.InsertMessage | app/api/chat/route.ts:54-78 | succeeds exactly when `AddMessage` does, and the tables become its result; unchanged on failure |
| Db.Store.DeleteConversation | app/api/chat/route.ts:125-127 | the tables become `CascadeDelete` of the old ones and stay consistent |
| Groq.RequestMessages | app/lib/groq.ts:30-34 | the request list has length of history + 2, starts with the system prompt, carries the history unchanged in the middle, and ends with the user's message |
| Groq.ReplyText | app/lib/groq.ts:39 | null content becomes exactly "Sorry, I couldn't answer that."; any other content is returned unchanged |
| Groq.GenerateReply | app/lib/groq.ts:24-40 | the reply is the fallback-applied content of the first choice; a failed call or an empty choice list is an error |
| JsText.TrimStart | app/api/chat/route.ts:36 | removes exactly the leading whitespace: the rest is a suffix that starts with a non-whitespace character |
| JsText.TrimEnd | app/api/chat/route.ts:36 | removes exactly the trailing whitespace: the rest is a prefix that ends with a non-whitespace character |
| JsText.Trim | app/api/chat/route.ts:36 | the trimmed text is empty exactly when the input is all whitespace; otherwise both its ends are non-whitespace |
| ChatRoute.ClientIdentity | app/api/chat/route.ts:16-19 | `x-forwarded-for` when present, else `x-real-ip` when present, else "unknown"; a present empty header is used |
| ChatRoute.IsBlankMessage | app/api/chat/route.ts:36 | a message is rejected exactly when it is missing or only whitespace |
| ChatRoute.ToChatMessage | app/api/chat/route.ts:67-70 | content is the stored text; the role is user exactly when the sender is "user", otherwise assistant, never system |
| ChatRoute.FormatHistory | app/api/chat/route.ts:67-70 | one chat message per stored row, same length and order |
| ChatRoute.ContextHistory | app/api/chat/route.ts:60-65 | the history read for the model holds at most 10 rows, in ascending time order |
| ChatRoute.ResolveConversation | app/api/chat/route.ts:43-52 | fails exactly when a new conversation is needed and its key is taken; otherwise yields the session id when truthy, else the fresh key, which then names a conversation; no message is touched and no conversation removed |
| ChatRoute.Exchange | app/api/chat/route.ts:54-90 | the steps after the conversation is known answer 200 with that conversation's id or the generic 500; a rejected user insert is a 500 with nothing written |
| ChatRoute.PostOutcome | app/api/chat/route.ts:13-91 | POST answers one of 429, 400, the generic 500 or a 200 reply body; the 429 and 400 answers write nothing |
| ChatRoute.Post | app/api/chat/route.ts:13-91 | the limiter's map becomes `Decide`'s, and the response and the new tables are `PostOutcome` of the old tables, with JSON parsing, the header lookup and every write done in the source's order |
| ChatRoute.PostEarlyExits | app/api/chat/route.ts:21-41 | a denied call answers 429, an unparsable body 500 and a blank message 400, each without touching the database |
| ChatRoute.ResolveConversationAdds | app/api/chat/route.ts:43-52 | a truthy session id is used as given with no write; otherwise one conversation is created under the fresh key, or the insert fails if the key is taken |
| ChatRoute.ExchangeAppends | app/api/chat/route.ts:54-78 | the exchange only appends, at most two messages, creates no conversation and keeps the database consistent |
| ChatRoute.ExchangeSuccess | app/api/chat/route.ts:54-83 | a 200 carries the conversation's id and appends the user row and then the ai row with the reply |
| ChatRoute.ExchangeReply | app/api/chat/route.ts:60-80 | the reply of a 200 is what the model answers to the history read after the user row was written |
| ChatRoute.ExchangeReplyFails | app/api/chat/route.ts:54-90 | once the user row is written, every outcome other than 200 (a failed call, a reply without choices, a rejected ai insert) is a 500 with that row kept and nothing else written; a failed model call gives that 500 |
| ChatRoute.PostOnlyAppends | app/api/chat/route.ts:13-91 | whatever happens, POST only appends messages (at most two), adds at most the fresh conversation, changes no existing conversation and keeps the database consistent |
| ChatRoute.PostSuccess | app/api/chat/route.ts:43-83 | on 200: a truthy session is reused with no new conversation, otherwise exactly one new conversation is created and returned; exactly the user row and then the ai row are appended |
| ChatRoute.PostReply | app/api/chat/route.ts:54-83 | the reply of a 200 POST is the model's answer to the history of its conversation read right after the user row was written |
| ChatRoute.FailedReplyKeepsUserMessage | app/api/chat/route.ts:54-90 | when the user row can be written, any POST that does not answer 200 answers 500 and leaves exactly that row (and a conversation created for it) in the database; a failed model call is such a case |
| ChatRoute.UnknownSessionFails | app/api/chat/route.ts:43-90 | a truthy session id naming no conversation breaks the foreign key on the user insert: 500, nothing written |
| ChatRoute.NoMessagesOfMissingConversation | app/lib/schema.ts:21-23 | in a consistent database, a conversation that does not exist has no messages |
| ChatRoute.ContextHistoryBounded | app/api/chat/route.ts:60-65 | the history holds min(10, n) of the conversation's n rows, a sub-multiset of them (no row twice), all of that conversation, ordered by time, and when n ≤ 10 it is all of them |
| ChatRoute.ContextHistoryIsEarliest | app/api/chat/route.ts:64-65 | no row left out of the history is older than one in it |
| ChatRoute.ContextHistoryInInsertionOrder | app/api/chat/route.ts:60-65 | when rows were stored in time order, the history is the first ten rows of the conversation in insertion order |
| ChatRoute.FirstTurnSendsMessageTwice | app/api/chat/route.ts:54-72 | on a new conversation, the model receives the system prompt followed by the user's message twice |
| ChatRoute.NewConversationTranscript | app/api/chat/route.ts:43-114 | after a 200 POST without a session, GET with the returned id answers exactly the user turn and then the ai turn with the reply |
| ChatRoute.TwoRowsOfNewConversation | app/api/chat/route.ts:54-78 | a conversation the tables lacked has exactly the two rows appended for it, in that order |
| ChatRoute.TranscriptOfTwo | app/api/chat/route.ts:108-113 | GET projects those two rows to `{sender, text}` in order |
| ChatRoute.TiedPairStays | app/api/chat/route.ts:106 | two rows with the same timestamp come back in insertion order |
| ChatRoute.Project | app/api/chat/route.ts:109-112 | one `{sender, text}` per row, same length and order |
| ChatRoute.Get | app/api/chat/route.ts:94-114 | GET always answers 200 with a message list, empty without a usable session |
| ChatRoute.GetReturnsConversation | app/api/chat/route.ts:94-114 | without a usable session GET answers an empty list; with one it answers 200 with the projection of a permutation of that conversation's messages (each exactly once) in ascending time order, and, when rows were stored in time order, exactly those messages in insertion order |
| ChatRoute.DeletedConversationIsEmpty | app/api/chat/route.ts:94-130 | after DELETE of a session, GET of it returns no messages |
| ChatRoute.Delete | app/api/chat/route.ts:117-130 | without a usable session: `success: false` and no change; otherwise: `success: true` and the cascade delete, even when the conversation does not exist |
| ChatPage.ServerSession | app/page.tsx:92-95 | the page's string session is sent as is; `null` and `undefined` arrive as no session |
| ChatPage.Title | app/page.tsx:107 | the title is the first min(30, length) characters of the message followed by "..." |
| ChatPage.FindSession | app/page.tsx:104 | `find`: none when no session has the id, otherwise the first session with that id |
| ChatPage.RememberSession | app/page.tsx:103-113 | a listed id leaves the list unchanged; an unlisted one is put in front of the unchanged list with its title; the id is listed afterwards and ids stay unique |
| ChatPage.RemoveSession | app/page.tsx:129 | the `filter` returns no more sessions than it was given |
| ChatPage.RemoveSessionMembers | app/page.tsx:129 | the filter keeps exactly the sessions with another id (both directions), in their order |
| ChatPage.RemoveAbsentSession | app/page.tsx:129 | removing an id that is not listed leaves the list unchanged |
| ChatPage.RemoveSessionKeepsUnique | app/page.tsx:129 | removal keeps ids unique |
| ChatPage.RemoveAfterRemember | app/page.tsx:103-129 | remembering a session and deleting it leaves the list as deleting alone would |
| ChatPage.RememberSessionIdempotent | app/page.tsx:103-104 | a second reply with the same session adds nothing |
| ChatPage.Received | app/page.tsx:98-101 | the page reads the reply text and the session id; a body without a session id yields `undefined` |
| ChatPage.ErrorReplyForgetsSession | app/page.tsx:100-109 | after a 429, 400 or 500 reply the session is `undefined`, the next POST starts a new conversation, and an unlisted id-less entry is put in front of the sidebar |
| ChatPage.SuccessReplyKeepsSession | app/page.tsx:101 | after a 200 reply the page holds the conversation's id and the next POST continues it |
| ChatPage.Page.BeginSend | app/page.tsx:79-96 | does nothing when the input trims to empty or a send is in progress; otherwise takes the untrimmed input, clears it, sets loading, appends the user message, and returns the body to post |
| ChatPage.Page.FinishSend | app/page.tsx:98-121 | appends the reply whatever the status, sets the session and remembers it in the sidebar; a throw appends "Something went wrong."; loading ends false either way |
| ChatPage.Page.DeleteChat | app/page.tsx:126-138 | the sidebar becomes the filtered list; deleting the current session clears the session and the transcript, and deleting another leaves both; a throwing DELETE changes nothing |
| ChatPage.Page.NewChat | app/page.tsx:145-149 | empties the transcript and clears the session, nothing else |

## Left out

- HTTP and framework machinery: `NextResponse`, `req.json()` and `URL` query parsing. Requests and responses are plain datatypes; an unparsable body is `None`.
- The database client: app/lib/db is not part of this model, nor is Drizzle's query building. The in-memory `Store` stands in for them. Connection failures, and Postgres rejecting a session id that is not a well-formed uuid, are not modelled.
- A `message` or `sessionId` in the JSON body that is not a string: the model takes both as optional strings.
- GET and DELETE have no error handling in the source, so a store failure there surfaces unhandled. The model's store cannot fail for them.
- The SDK call, the model name, `max_tokens` and `temperature`: the completion is the `Completer` parameter.
- Wall-clock time: `now` is a parameter. Every row one POST writes gets the same `now`, so a user row and its reply share a timestamp.
- ChatRoute.ContextHistoryInInsertionOrder, ChatRoute.TiedPairStays, Db.OrderedRowsStay: ties in `createdAt` are broken by insertion order. SQL does not promise this, so the model assumes that deterministic order.
- Concurrency on the limiter's map: requests are handled one at a time, so the exact cap that `CapWithinWindow` proves is sequential. Under parallel requests the source's cap is only best-effort.
- Number width: counts and times are unbounded integers, since JavaScript numbers stay exact far beyond these values.
- `Title` and `Take` count characters; JavaScript's `slice` counts UTF-16 code units, which differs for characters outside the Basic Multilingual Plane.
- `useEffect` hooks (loading the session and sidebar from `localStorage`, reloading the transcript through GET when the session changes, autoscroll), every `localStorage` write, and JSX rendering.
- ChatPage.Page.DeleteChat: takes the state at the time the DELETE finishes. The source's handler reads `sessions` and `sessionId` from the render that created it (a stale closure).
- ChatPage.Page.FinishSend: applies the `setMessages`/`setSessions` updaters at once rather than batched by React. A reply whose JSON lacks `reply` is not modelled, since every body the route sends has one.
- `console.error(err)` in the POST handler's catch: logging is a side effect with no bearing on the response or the database.
- The `new-chat` window event and the chat context handed to the navigation bar: `NewChat` models the handler they invoke. app/layout.tsx, components/Navbar.tsx, components/NavbarWrapper.tsx and components/chat-context.tsx are not part of this model.
