/**
 * The chat endpoint: POST runs one conversational turn (rate limit,
 * validation, conversation, user message, history, reply, ai message), GET
 * returns a conversation's transcript and DELETE removes a conversation.
 */
module ChatRoute {
  import opened Wrappers
  import opened JsText
  import opened Schema
  import opened Db
  import opened Groq
  import opened RateLimit
  import opened Sequences

  /** The two request headers the caller's identity is read from; absent is `None`. */
  datatype Headers = Headers(forwardedFor: Option<string>, realIp: Option<string>)

  /** The JSON body of a POST; absent properties are `None`. */
  datatype PostBody = PostBody(message: Option<string>, sessionId: Option<string>)

  /** A POST request; `body` is `None` when the body is not JSON that can be destructured. */
  datatype PostRequest = PostRequest(headers: Headers, body: Option<PostBody>)

  /** A transcript entry as GET returns it. */
  datatype Turn = Turn(sender: string, text: string)

  /** The JSON bodies the endpoint answers with. */
  datatype ResponseBody =
    | ReplyBody(reply: string, sessionId: Option<Uuid>)
    | MessagesBody(messages: seq<Turn>)
    | SuccessBody(success: bool)

  datatype Response = Response(status: int, body: ResponseBody)

  /** The keys the database would draw at random for the rows one POST may insert. */
  datatype FreshIds = FreshIds(conversation: Uuid, userMessage: Uuid, aiMessage: Uuid)

  const TooManyRequests := Response(429, ReplyBody("Too many requests. Please slow down.", None))
  const EmptyMessage := Response(400, ReplyBody("Message cannot be empty.", None))
  const ServerError := Response(500, ReplyBody("Something went wrong.", None))

  /** How many stored messages are handed to the model. */
  const HistoryLimit: nat := 10

  /**
   * The rate-limit identity: `x-forwarded-for`, else `x-real-ip`, else
   * "unknown". A header that is present but empty is still used.
   */
  function ClientIdentity(h: Headers): (ip: string)
    ensures h.forwardedFor.Some? ==> ip == h.forwardedFor.value
    ensures h.forwardedFor.None? && h.realIp.Some? ==> ip == h.realIp.value
    ensures h.forwardedFor.None? && h.realIp.None? ==> ip == "unknown"
  {
    h.forwardedFor.GetOr(h.realIp.GetOr("unknown"))
  }

  /** `!message || !message.trim()`: the message is missing or only whitespace. */
  predicate IsBlankMessage(message: Option<string>)
    ensures IsBlankMessage(message) <==> message.None? || AllWhitespace(message.value)
  {
    message.None? || !Truthy(message.value) || !Truthy(Trim(message.value))
  }

  /** A `sessionId` that is truthy is reused; a missing or empty one makes a new conversation. */
  predicate ReusesSession(sessionId: Option<string>) {
    sessionId.Some? && Truthy(sessionId.value)
  }

  /** Role of a stored message in the model's history: "user" stays user, anything else is the assistant. */
  function ToChatMessage(m: Message): (c: ChatMessage)
    ensures c.content == m.text
    ensures c.role == User <==> m.sender == "user"
    ensures c.role != System
  {
    ChatMessage(if m.sender == "user" then User else Assistant, m.text)
  }

  /** `history.map(...)`: one chat message per stored message, in the same order. */
  function FormatHistory(ms: seq<Message>): (r: seq<ChatMessage>)
    ensures |r| == |ms|
    ensures forall i :: 0 <= i < |ms| ==> r[i] == ToChatMessage(ms[i])
  {
    seq(|ms|, i requires 0 <= i < |ms| => ToChatMessage(ms[i]))
  }

  /** The history POST reads back for conversation `cid`. */
  function ContextHistory(t: Tables, cid: Uuid): (h: seq<Message>)
    ensures |h| <= HistoryLimit && ByCreatedAt(h)
  {
    Select(t, cid, Some(HistoryLimit))
  }

  /** Messages POST writes. */
  function UserMessage(ids: FreshIds, cid: Uuid, text: string, now: Timestamp): Message {
    Message(ids.userMessage, cid, "user", text, now)
  }

  function AiMessage(ids: FreshIds, cid: Uuid, text: string, now: Timestamp): Message {
    Message(ids.aiMessage, cid, "ai", text, now)
  }

  /**
   * The conversation a POST writes to, and the tables after creating it when
   * it is new; an error when the insert fails.
   */
  function ResolveConversation(t: Tables, sessionId: Option<string>, now: Timestamp, ids: FreshIds)
    : (r: Result<(Tables, Uuid), StoreError>)
    ensures r.Err? <==> !ReusesSession(sessionId) && ids.conversation in t.conversations
    ensures r.Ok? ==> r.value.1 == (if ReusesSession(sessionId) then sessionId.value else ids.conversation)
    ensures r.Ok? ==> r.value.0.messages == t.messages && t.conversations.Keys <= r.value.0.conversations.Keys
    ensures r.Ok? && !ReusesSession(sessionId) ==> r.value.1 in r.value.0.conversations
  {
    if ReusesSession(sessionId) then Ok((t, sessionId.value))
    else
      match AddConversation(t, ids.conversation, now)
      case Ok(t1) => Ok((t1, ids.conversation))
      case Err(e) => Err(e)
  }

  /**
   * The steps of POST once the conversation `cid` is known: write the user's
   * message, read the history, ask the model, write the reply. A step that
   * throws yields a 500 and keeps what the earlier steps wrote.
   */
  function Exchange(t1: Tables, cid: Uuid, message: string, now: Timestamp,
                    ids: FreshIds, complete: Completer): (r: (Response, Tables))
    ensures r.0 == ServerError || (r.0.status == 200 && r.0.body.ReplyBody? && r.0.body.sessionId == Some(cid))
    ensures AddMessage(t1, UserMessage(ids, cid, message, now)).Err? ==> r == (ServerError, t1)
  {
    match AddMessage(t1, UserMessage(ids, cid, message, now))
    case Err(_) => (ServerError, t1)
    case Ok(t2) =>
      match GenerateReply(FormatHistory(ContextHistory(t2, cid)), message, complete)
      case Err(_) => (ServerError, t2)
      case Ok(reply) =>
        match AddMessage(t2, AiMessage(ids, cid, reply, now))
        case Err(_) => (ServerError, t2)
        case Ok(t3) => (Response(200, ReplyBody(reply, Some(cid))), t3)
  }

  /**
   * What POST answers and what it leaves in the database, once the rate
   * limiter has said `allowed`.
   */
  function PostOutcome(t: Tables, allowed: bool, body: Option<PostBody>, now: Timestamp,
                       ids: FreshIds, complete: Completer): (r: (Response, Tables))
    ensures r.0 in {TooManyRequests, ServerError, EmptyMessage} || (r.0.status == 200 && r.0.body.ReplyBody?)
    ensures r.0 != ServerError && r.0.status != 200 ==> r.1 == t
  {
    if !allowed then (TooManyRequests, t)
    else if body.None? then (ServerError, t)
    else if IsBlankMessage(body.value.message) then (EmptyMessage, t)
    else
      match ResolveConversation(t, body.value.sessionId, now, ids)
      case Err(_) => (ServerError, t)
      case Ok((t1, cid)) => Exchange(t1, cid, body.value.message.value, now, ids, complete)
  }

  /**
   * POST. The clock reading `now`, the random keys `ids` and the hosted
   * model `complete` are inputs.
   */
  method Post(db: Store, limiter: RateLimiter, req: PostRequest, now: Timestamp,
              ids: FreshIds, complete: Completer) returns (resp: Response)
    requires db.Valid() && limiter.Valid()
    modifies db, limiter
    ensures db.Valid() && limiter.Valid()
    ensures var d := Decide(old(limiter.entries), ClientIdentity(req.headers), now);
      && limiter.entries == d.entries
      && (resp, db.Snapshot()) == PostOutcome(old(db.Snapshot()), d.allowed, req.body, now, ids, complete)
  {
    var ip := ClientIdentity(req.headers);
    var allowed := limiter.Check(ip, now);
    if !allowed {
      return TooManyRequests;
    }
    if req.body.None? {
      return ServerError;
    }
    var body := req.body.value;
    if IsBlankMessage(body.message) {
      return EmptyMessage;
    }
    var message := body.message.value;
    var conversationId: Uuid;
    if ReusesSession(body.sessionId) {
      conversationId := body.sessionId.value;
    } else {
      var created := db.InsertConversation(ids.conversation, now);
      if !created {
        return ServerError;
      }
      conversationId := ids.conversation;
    }
    var stored := db.InsertMessage(UserMessage(ids, conversationId, message, now));
    if !stored {
      return ServerError;
    }
    var history := ContextHistory(db.Snapshot(), conversationId);
    var reply := GenerateReply(FormatHistory(history), message, complete);
    if reply.Err? {
      return ServerError;
    }
    stored := db.InsertMessage(AiMessage(ids, conversationId, reply.value, now));
    if !stored {
      return ServerError;
    }
    resp := Response(200, ReplyBody(reply.value, Some(conversationId)));
  }

  /** The three early exits answer without writing to the database. */
  lemma PostEarlyExits(t: Tables, allowed: bool, body: Option<PostBody>, now: Timestamp,
                       ids: FreshIds, complete: Completer)
    ensures !allowed ==> PostOutcome(t, allowed, body, now, ids, complete) == (TooManyRequests, t)
    ensures allowed && body.None? ==> PostOutcome(t, allowed, body, now, ids, complete) == (ServerError, t)
    ensures allowed && body.Some? && IsBlankMessage(body.value.message) ==>
      PostOutcome(t, allowed, body, now, ids, complete) == (EmptyMessage, t)
  {
  }

  /**
   * The steps after the conversation is known only append, to the messages,
   * at most the user's message and the reply.
   */
  lemma ExchangeAppends(t1: Tables, cid: Uuid, message: string, now: Timestamp,
                        ids: FreshIds, complete: Completer)
    ensures var t' := Exchange(t1, cid, message, now, ids, complete).1;
      && t'.conversations == t1.conversations
      && t1.messages <= t'.messages && |t'.messages| <= |t1.messages| + 2
      && (Consistent(t1) ==> Consistent(t'))
  {
    var u := UserMessage(ids, cid, message, now);
    var o := Exchange(t1, cid, message, now, ids, complete);
    match AddMessage(t1, u)
    case Err(_) =>
      assert o.1 == t1;
    case Ok(t2) =>
      assert t2 == t1.(messages := t1.messages + [u]);
      match GenerateReply(FormatHistory(ContextHistory(t2, cid)), message, complete)
      case Err(_) =>
        assert o.1 == t2;
      case Ok(reply) =>
        var a := AiMessage(ids, cid, reply, now);
        match AddMessage(t2, a)
        case Err(_) =>
          assert o.1 == t2;
        case Ok(t3) =>
          assert o.1 == t3 == t2.(messages := t2.messages + [a]);
          assert t3.messages == t1.messages + [u] + [a];
  }

  /** A successful exchange wrote the user's message and then the reply. */
  lemma ExchangeSuccess(t1: Tables, cid: Uuid, message: string, now: Timestamp,
                        ids: FreshIds, complete: Completer)
    ensures var o := Exchange(t1, cid, message, now, ids, complete);
      o.0.status == 200 ==>
        && o.0.body == ReplyBody(o.0.body.reply, Some(cid))
        && o.1.messages == t1.messages + [UserMessage(ids, cid, message, now), AiMessage(ids, cid, o.0.body.reply, now)]
  {
    var u := UserMessage(ids, cid, message, now);
    var o := Exchange(t1, cid, message, now, ids, complete);
    match AddMessage(t1, u)
    case Err(_) =>
      assert o.0 == ServerError;
    case Ok(t2) =>
      assert t2 == t1.(messages := t1.messages + [u]);
      match GenerateReply(FormatHistory(ContextHistory(t2, cid)), message, complete)
      case Err(_) =>
        assert o.0 == ServerError;
      case Ok(reply) =>
        var a := AiMessage(ids, cid, reply, now);
        match AddMessage(t2, a)
        case Err(_) =>
          assert o.0 == ServerError;
        case Ok(t3) =>
          assert o == (Response(200, ReplyBody(reply, Some(cid))), t3);
          assert t3 == t2.(messages := t2.messages + [a]);
          assert t3.messages == t1.messages + [u, a];
  }

  /** The reply of a successful exchange is the model's answer to the history read after the user's message was written. */
  lemma ExchangeReply(t1: Tables, cid: Uuid, message: string, now: Timestamp,
                      ids: FreshIds, complete: Completer)
    ensures var o := Exchange(t1, cid, message, now, ids, complete);
      o.0.status == 200 ==>
        && o.0.body.ReplyBody?
        && GenerateReply(FormatHistory(ContextHistory(
             t1.(messages := t1.messages + [UserMessage(ids, cid, message, now)]), cid)), message, complete)
           == Ok(o.0.body.reply)
  {
    var u := UserMessage(ids, cid, message, now);
    var o := Exchange(t1, cid, message, now, ids, complete);
    match AddMessage(t1, u)
    case Err(_) =>
      assert o.0 == ServerError;
    case Ok(t2) =>
      assert t2 == t1.(messages := t1.messages + [u]);
      match GenerateReply(FormatHistory(ContextHistory(t2, cid)), message, complete)
      case Err(_) =>
        assert o.0 == ServerError;
      case Ok(reply) =>
        match AddMessage(t2, AiMessage(ids, cid, reply, now))
        case Err(_) =>
          assert o.0 == ServerError;
        case Ok(t3) =>
          assert o.0 == Response(200, ReplyBody(reply, Some(cid)));
  }

  /**
   * Once the user's message is written, any later step that throws (the
   * model call, a reply without choices, the insert of the reply) ends the
   * exchange in a 500 that keeps that write; a failed model call is one.
   */
  lemma ExchangeReplyFails(t1: Tables, cid: Uuid, message: string, now: Timestamp,
                           ids: FreshIds, complete: Completer)
    requires AddMessage(t1, UserMessage(ids, cid, message, now)).Ok?
    ensures var o, t2 := Exchange(t1, cid, message, now, ids, complete),
                         t1.(messages := t1.messages + [UserMessage(ids, cid, message, now)]);
      && (o.0.status != 200 ==> o == (ServerError, t2))
      && (GenerateReply(FormatHistory(ContextHistory(t2, cid)), message, complete).Err? ==> o == (ServerError, t2))
  {
    var u := UserMessage(ids, cid, message, now);
    var t2 := t1.(messages := t1.messages + [u]);
    assert AddMessage(t1, u) == Ok(t2);
  }

  /** How the conversation is resolved: reused as given, or created under the fresh key. */
  lemma ResolveConversationAdds(t: Tables, sessionId: Option<string>, now: Timestamp, ids: FreshIds)
    ensures var r := ResolveConversation(t, sessionId, now, ids);
      && (ReusesSession(sessionId) ==> r == Ok((t, sessionId.value)))
      && (!ReusesSession(sessionId) ==>
            if ids.conversation in t.conversations then r.Err?
            else r == Ok((t.(conversations := t.conversations[ids.conversation := Conversation(ids.conversation, now)]),
                          ids.conversation)))
      && (r.Ok? && Consistent(t) ==> Consistent(r.value.0))
  {
  }

  /**
   * POST only ever appends: earlier messages and conversations stay as they
   * were, at most two messages and one conversation are added, and the
   * integrity constraints keep holding.
   */
  lemma PostOnlyAppends(t: Tables, allowed: bool, body: Option<PostBody>, now: Timestamp,
                        ids: FreshIds, complete: Completer)
    ensures var t' := PostOutcome(t, allowed, body, now, ids, complete).1;
      && t.messages <= t'.messages && |t'.messages| <= |t.messages| + 2
      && t.conversations.Keys <= t'.conversations.Keys <= t.conversations.Keys + {ids.conversation}
      && (forall k :: k in t.conversations ==> t'.conversations[k] == t.conversations[k])
      && (Consistent(t) ==> Consistent(t'))
  {
    var o := PostOutcome(t, allowed, body, now, ids, complete);
    if !allowed || body.None? || IsBlankMessage(body.value.message) {
      assert o.1 == t;
    } else {
      var message := body.value.message.value;
      ResolveConversationAdds(t, body.value.sessionId, now, ids);
      match ResolveConversation(t, body.value.sessionId, now, ids)
      case Err(_) =>
        assert o.1 == t;
      case Ok((t1, cid)) =>
        assert o == Exchange(t1, cid, message, now, ids, complete);
        ExchangeAppends(t1, cid, message, now, ids, complete);
    }
  }

  /**
   * A successful POST wrote exactly two messages to the conversation it
   * answers with, the user's text and then the reply; it created that
   * conversation exactly when no usable session was given.
   */
  lemma PostSuccess(t: Tables, message: string, sessionId: Option<string>, now: Timestamp,
                    ids: FreshIds, complete: Completer)
    ensures var o := PostOutcome(t, true, Some(PostBody(Some(message), sessionId)), now, ids, complete);
      o.0.status == 200 ==>
        && !IsBlankMessage(Some(message))
        && o.0.body.ReplyBody? && o.0.body.sessionId.Some?
        && (var cid, t' := o.0.body.sessionId.value, o.1;
            && (ReusesSession(sessionId) ==> cid == sessionId.value && t'.conversations == t.conversations)
            && (!ReusesSession(sessionId) ==>
                  cid == ids.conversation && cid !in t.conversations
                  && t'.conversations == t.conversations[cid := Conversation(cid, now)])
            && t'.messages == t.messages + [UserMessage(ids, cid, message, now), AiMessage(ids, cid, o.0.body.reply, now)])
  {
    if !IsBlankMessage(Some(message)) {
      ResolveConversationAdds(t, sessionId, now, ids);
      match ResolveConversation(t, sessionId, now, ids)
      case Err(_) =>
      case Ok((t1, cid)) =>
        ExchangeAppends(t1, cid, message, now, ids, complete);
        ExchangeSuccess(t1, cid, message, now, ids, complete);
        var o := Exchange(t1, cid, message, now, ids, complete);
        assert PostOutcome(t, true, Some(PostBody(Some(message), sessionId)), now, ids, complete) == o;
        assert t1.messages == t.messages;
    }
  }

  /**
   * The reply of a successful POST is the model's answer to the history of
   * its conversation read right after the user's message was written.
   */
  lemma PostReply(t: Tables, message: string, sessionId: Option<string>, now: Timestamp,
                  ids: FreshIds, complete: Completer)
    ensures var o := PostOutcome(t, true, Some(PostBody(Some(message), sessionId)), now, ids, complete);
      o.0.status == 200 ==>
        && o.0.body.ReplyBody? && o.0.body.sessionId.Some?
        && (var cid := o.0.body.sessionId.value;
            GenerateReply(FormatHistory(ContextHistory(
              Tables(o.1.conversations, t.messages + [UserMessage(ids, cid, message, now)]), cid)),
              message, complete) == Ok(o.0.body.reply))
  {
    if !IsBlankMessage(Some(message)) {
      ResolveConversationAdds(t, sessionId, now, ids);
      match ResolveConversation(t, sessionId, now, ids)
      case Err(_) =>
      case Ok((t1, cid)) =>
        ExchangeAppends(t1, cid, message, now, ids, complete);
        ExchangeSuccess(t1, cid, message, now, ids, complete);
        ExchangeReply(t1, cid, message, now, ids, complete);
        var o := Exchange(t1, cid, message, now, ids, complete);
        assert PostOutcome(t, true, Some(PostBody(Some(message), sessionId)), now, ids, complete) == o;
        assert t1.messages == t.messages;
        assert o.0.status == 200 ==>
          (Tables(o.1.conversations, t.messages + [UserMessage(ids, cid, message, now)])
           == t1.(messages := t1.messages + [UserMessage(ids, cid, message, now)]));
    }
  }

  /**
   * After the user's message is written, a POST that does not answer 200
   * answers 500 and keeps that message (and a conversation made for it):
   * nothing is rolled back. A failed model call is such a case.
   */
  lemma FailedReplyKeepsUserMessage(t: Tables, message: string, sessionId: Option<string>, now: Timestamp,
                                    ids: FreshIds, complete: Completer)
    requires !IsBlankMessage(Some(message))
    requires ReusesSession(sessionId) ==> sessionId.value in t.conversations
    requires !ReusesSession(sessionId) ==> ids.conversation !in t.conversations
    requires ids.userMessage !in MessageIds(t.messages)
    ensures var o := PostOutcome(t, true, Some(PostBody(Some(message), sessionId)), now, ids, complete);
      var cid := if ReusesSession(sessionId) then sessionId.value else ids.conversation;
      var conversations := if ReusesSession(sessionId) then t.conversations
                           else t.conversations[cid := Conversation(cid, now)];
      var t2 := Tables(conversations, t.messages + [UserMessage(ids, cid, message, now)]);
      && (o.0.status != 200 ==> o == (ServerError, t2))
      && (GenerateReply(FormatHistory(ContextHistory(t2, cid)), message, complete).Err? ==> o == (ServerError, t2))
  {
    ResolveConversationAdds(t, sessionId, now, ids);
    var cid := if ReusesSession(sessionId) then sessionId.value else ids.conversation;
    var t1 := ResolveConversation(t, sessionId, now, ids).value.0;
    assert PostOutcome(t, true, Some(PostBody(Some(message), sessionId)), now, ids, complete)
        == Exchange(t1, cid, message, now, ids, complete);
    ExchangeReplyFails(t1, cid, message, now, ids, complete);
  }

  /**
   * A usable session id that names no conversation makes the user's insert
   * break the foreign key: the answer is a 500 and nothing is written.
   */
  lemma UnknownSessionFails(t: Tables, message: string, sid: Uuid, now: Timestamp,
                            ids: FreshIds, complete: Completer)
    requires !IsBlankMessage(Some(message)) && Truthy(sid) && sid !in t.conversations
    ensures PostOutcome(t, true, Some(PostBody(Some(message), Some(sid))), now, ids, complete) == (ServerError, t)
  {
    assert ResolveConversation(t, Some(sid), now, ids) == Ok((t, sid));
    assert AddMessage(t, UserMessage(ids, sid, message, now)).Err?;
  }

  /** A table whose references hold has no message of a conversation it lacks. */
  lemma NoMessagesOfMissingConversation(ms: seq<Message>, conversations: map<Uuid, Conversation>, cid: Uuid)
    requires ReferencesExist(ms, conversations) && cid !in conversations
    ensures OfConversation(ms, cid) == []
  {
    forall m | m in ms ensures m.conversationId != cid {
      var i :| 0 <= i < |ms| && ms[i] == m;
    }
    NoneOfConversation(ms, cid);
  }

  /**
   * The history handed to the model holds at most ten messages, all of the
   * conversation `cid`, oldest first; when the conversation has no more than
   * ten, it is all of them.
   */
  lemma ContextHistoryBounded(t: Tables, cid: Uuid)
    ensures var all, h := OfConversation(t.messages, cid), ContextHistory(t, cid);
      && |h| == (if |all| < HistoryLimit then |all| else HistoryLimit)
      && ByCreatedAt(h)
      && (forall m :: m in h ==> m in t.messages && m.conversationId == cid)
      && multiset(h) <= multiset(all)
      && (|all| <= HistoryLimit ==> multiset(h) == multiset(all))
  {
    var all := OfConversation(t.messages, cid);
    if |all| <= HistoryLimit {
      assert ContextHistory(t, cid) == OrderByCreatedAt(all);
    }
  }

  /**
   * The history is the conversation's EARLIEST messages: none of the
   * messages left out is older than one handed to the model.
   */
  lemma ContextHistoryIsEarliest(t: Tables, cid: Uuid)
    ensures var all, h := OfConversation(t.messages, cid), ContextHistory(t, cid);
      forall x: Message, y: Message :: x in h && y in multiset(all) - multiset(h) ==> x.createdAt <= y.createdAt
  {
    var all := OfConversation(t.messages, cid);
    var sorted := OrderByCreatedAt(all);
    OrderByCreatedAtSorted(all);
    PrefixIsEarliest(sorted, |ContextHistory(t, cid)|);
  }

  /**
   * When messages were written in timestamp order, the history is the first
   * ten of the conversation in insertion order (not the last ten).
   */
  lemma ContextHistoryInInsertionOrder(t: Tables, cid: Uuid)
    requires ByCreatedAt(t.messages)
    ensures ContextHistory(t, cid) == Take(OfConversation(t.messages, cid), HistoryLimit)
  {
    OfConversationKeepsOrder(t.messages, cid);
    OrderedRowsStay(OfConversation(t.messages, cid));
  }

  /**
   * On the first turn of a new conversation the history already holds the
   * user's message, so the model receives that message twice: once as
   * history and once as the new message.
   */
  lemma FirstTurnSendsMessageTwice(t: Tables, message: string, now: Timestamp, ids: FreshIds)
    requires Consistent(t) && ids.conversation !in t.conversations
    ensures var t2 := Tables(t.conversations[ids.conversation := Conversation(ids.conversation, now)],
                             t.messages + [UserMessage(ids, ids.conversation, message, now)]);
      RequestMessages(FormatHistory(ContextHistory(t2, ids.conversation)), message)
        == [ChatMessage(System, SystemPrompt), ChatMessage(User, message), ChatMessage(User, message)]
  {
    var u := UserMessage(ids, ids.conversation, message, now);
    var t2 := Tables(t.conversations[ids.conversation := Conversation(ids.conversation, now)], t.messages + [u]);
    FirstTurnHistory(t, t2, u);
    var f := FormatHistory([u]);
    assert f[0] == ChatMessage(User, message);
    assert f == [ChatMessage(User, message)];
  }

  /** The history read right after the first message of a new conversation is that message alone. */
  lemma FirstTurnHistory(t: Tables, t2: Tables, u: Message)
    requires Consistent(t) && u.conversationId !in t.conversations
    requires t2.messages == t.messages + [u]
    ensures ContextHistory(t2, u.conversationId) == [u]
  {
    NoMessagesOfMissingConversation(t.messages, t.conversations, u.conversationId);
    OfConversationAppend(t.messages, u, u.conversationId);
    assert OfConversation(t2.messages, u.conversationId) == [u];
    OrderedRowsStay([u]);
  }

  /**
   * A POST without a session that succeeds leaves a conversation whose GET
   * returns exactly the user's message and then the reply.
   */
  lemma NewConversationTranscript(t: Tables, message: string, now: Timestamp, ids: FreshIds, complete: Completer)
    requires Consistent(t) && ids.conversation != ""
    ensures var o := PostOutcome(t, true, Some(PostBody(Some(message), None)), now, ids, complete);
      o.0.status == 200 ==>
        && o.0.body.ReplyBody?
        && Get(o.1, o.0.body.sessionId) == Response(200, MessagesBody([Turn("user", message), Turn("ai", o.0.body.reply)]))
  {
    var o := PostOutcome(t, true, Some(PostBody(Some(message), None)), now, ids, complete);
    if o.0.status == 200 {
      PostSuccess(t, message, None, now, ids, complete);
      var cid := ids.conversation;
      assert !ReusesSession(None);
      assert o.0.body.sessionId == Some(cid) && cid !in t.conversations;
      TranscriptOfNewSession(t, o.1, o.0, cid, message, now, ids);
    }
  }

  /** GET of a conversation the tables lacked, after the user row and the ai row were appended for it. */
  lemma TranscriptOfNewSession(t: Tables, t': Tables, resp: Response, cid: Uuid, message: string, now: Timestamp, ids: FreshIds)
    requires Consistent(t) && cid != "" && cid !in t.conversations
    requires resp.body.ReplyBody? && resp.body.sessionId == Some(cid)
    requires t'.messages == t.messages + [UserMessage(ids, cid, message, now), AiMessage(ids, cid, resp.body.reply, now)]
    ensures Get(t', resp.body.sessionId) == Response(200, MessagesBody([Turn("user", message), Turn("ai", resp.body.reply)]))
  {
    var u, a := UserMessage(ids, cid, message, now), AiMessage(ids, cid, resp.body.reply, now);
    TwoRowsOfNewConversation(t, t', u, a);
    TranscriptOfTwo(t', cid, u, a);
  }

  /** The rows of a conversation the tables lacked are exactly the two appended for it. */
  lemma TwoRowsOfNewConversation(t: Tables, t': Tables, u: Message, a: Message)
    requires Consistent(t) && u.conversationId !in t.conversations
    requires a.conversationId == u.conversationId && a.createdAt == u.createdAt
    requires t'.messages == t.messages + [u, a]
    ensures Select(t', u.conversationId, None) == [u, a]
  {
    var cid := u.conversationId;
    NoMessagesOfMissingConversation(t.messages, t.conversations, cid);
    OfConversationAppend(t.messages, u, cid);
    var withU := t.messages + [u];
    assert OfConversation(withU, cid) == [u];
    OfConversationAppend(withU, a, cid);
    assert t'.messages == withU + [a];
    assert OfConversation(t'.messages, cid) == [u, a];
    TiedPairStays(u, a);
  }

  /** GET of a session whose query selects two rows answers with those two, in order. */
  lemma TranscriptOfTwo(t: Tables, id: Uuid, u: Message, a: Message)
    requires Truthy(id) && Select(t, id, None) == [u, a]
    ensures Get(t, Some(id)) == Response(200, MessagesBody([Turn(u.sender, u.text), Turn(a.sender, a.text)]))
  {
    var p := Project([u, a]);
    assert p[0] == ToTurn(u) && p[1] == ToTurn(a);
    assert |p| == 2;
    assert p == [Turn(u.sender, u.text), Turn(a.sender, a.text)];
    assert Get(t, Some(id)) == Response(200, MessagesBody(p));
  }

  /** Two rows with the same timestamp keep their insertion order. */
  lemma TiedPairStays(u: Message, a: Message)
    requires a.createdAt == u.createdAt
    ensures OrderByCreatedAt([u, a]) == [u, a]
  {
    OrderedRowsStay([u, a]);
  }

  /** GET's projection of a stored message. */
  function ToTurn(m: Message): Turn {
    Turn(m.sender, m.text)
  }

  function Project(ms: seq<Message>): (r: seq<Turn>)
    ensures |r| == |ms|
    ensures forall i :: 0 <= i < |ms| ==> r[i] == ToTurn(ms[i])
  {
    seq(|ms|, i requires 0 <= i < |ms| => ToTurn(ms[i]))
  }

  /** GET: the whole transcript of `sessionId`, oldest first; nothing without a session. */
  function Get(t: Tables, sessionId: Option<string>): (r: Response)
    ensures r.status == 200 && r.body.MessagesBody?
    ensures !ReusesSession(sessionId) ==> r.body.messages == []
  {
    if !ReusesSession(sessionId) then Response(200, MessagesBody([]))
    else Response(200, MessagesBody(Project(Select(t, sessionId.value, None))))
  }

  /**
   * GET without a usable session answers an empty list. With one it returns
   * one entry per message of that conversation, each the projection of such
   * a message, and, when rows were written in timestamp order, exactly those
   * messages in insertion order.
   */
  lemma GetReturnsConversation(t: Tables, sessionId: Option<string>)
    ensures !ReusesSession(sessionId) ==> Get(t, sessionId) == Response(200, MessagesBody([]))
    ensures ReusesSession(sessionId) ==>
      var r, all := Get(t, sessionId), OfConversation(t.messages, sessionId.value);
      && r.status == 200 && r.body.MessagesBody?
      && |r.body.messages| == |all|
      && (forall i :: 0 <= i < |r.body.messages| ==> exists m :: m in all && r.body.messages[i] == ToTurn(m))
      && r.body.messages == Project(OrderByCreatedAt(all))
      && multiset(OrderByCreatedAt(all)) == multiset(all)
      && ByCreatedAt(OrderByCreatedAt(all))
      && (ByCreatedAt(t.messages) ==> r.body.messages == Project(all))
  {
    if ReusesSession(sessionId) {
      var id := sessionId.value;
      var all := OfConversation(t.messages, id);
      var sorted := OrderByCreatedAt(all);
      assert |sorted| == |multiset(sorted)| == |multiset(all)|;
      forall i | 0 <= i < |sorted| ensures exists m :: m in all && Project(sorted)[i] == ToTurn(m) {
        assert sorted[i] in multiset(sorted);
        assert sorted[i] in all;
      }
      OrderByCreatedAtSorted(all);
      if ByCreatedAt(t.messages) {
        OfConversationKeepsOrder(t.messages, id);
        OrderedRowsStay(all);
      }
    }
  }

  /** After DELETE of a session, GET of that session returns no messages. */
  lemma DeletedConversationIsEmpty(t: Tables, id: Uuid)
    requires Truthy(id)
    ensures Get(CascadeDelete(t, id), Some(id)) == Response(200, MessagesBody([]))
  {
    CascadeDeleteRemovesExactly(t, id);
  }

  /** DELETE: removes the conversation and its messages; `success` is false only without a session. */
  method Delete(db: Store, sessionId: Option<string>) returns (resp: Response)
    requires db.Valid()
    modifies db
    ensures db.Valid()
    ensures !ReusesSession(sessionId) ==> resp == Response(200, SuccessBody(false)) && db.Snapshot() == old(db.Snapshot())
    ensures ReusesSession(sessionId) ==>
      resp == Response(200, SuccessBody(true)) && db.Snapshot() == CascadeDelete(old(db.Snapshot()), sessionId.value)
  {
    if !ReusesSession(sessionId) {
      return Response(200, SuccessBody(false));
    }
    db.DeleteConversation(sessionId.value);
    return Response(200, SuccessBody(true));
  }
}
