/**
 * The browser page's own bookkeeping: the visible transcript, the input box,
 * the in-progress flag, the current session and the sidebar's list of
 * sessions, and how sending a message and deleting a chat change them.
 */
module ChatPage {
  import opened Wrappers
  import opened JsText
  import opened Sequences
  import ChatRoute

  /**
   * A JavaScript value that is a string, `null` or `undefined`. Strict
   * equality (`===`) on such values is equality of these values.
   */
  datatype JsString = Null | Undefined | Str(s: string)

  /** A transcript entry on the page. */
  datatype UiMessage = UiMessage(sender: string, text: string)

  /** A sidebar entry; its `id` is whatever `data.sessionId` was. */
  datatype ChatSession = ChatSession(id: JsString, title: string)

  /**
   * How the page's POST ends: a JSON body with its `reply` and `sessionId`
   * (the latter `undefined` in the 429, 400 and 500 bodies), or a throw
   * (the request failed or the body was not JSON).
   */
  datatype FetchOutcome = Replied(reply: string, sessionId: JsString) | Threw

  /** What the page shows when the request throws. */
  const ErrorText: string := "Something went wrong."

  /** How many characters of its first message make up a session's title. */
  const TitleLength: nat := 30

  /**
   * The `sessionId` property the server reads from the page's JSON body:
   * `null` is sent as null and `undefined` is left out, both absent.
   */
  function ServerSession(v: JsString): (r: Option<string>)
    ensures r.Some? <==> v.Str?
    ensures v.Str? ==> r.value == v.s
  {
    match v
    case Str(s) => Some(s)
    case _ => None
  }

  /** `text.slice(0, 30) + "..."`. */
  function Title(text: string): (r: string)
    ensures |r| == (if |text| < TitleLength then |text| else TitleLength) + 3
    ensures r[..|r| - 3] <= text && r[|r| - 3..] == "..."
  {
    Take(text, TitleLength) + "..."
  }

  /** No two sessions in the list share an id. */
  predicate UniqueIds(sessions: seq<ChatSession>) {
    forall i, j :: 0 <= i < j < |sessions| ==> sessions[i].id != sessions[j].id
  }

  /** `sessions.find(s => s.id === id)`: the first session with that id. */
  function FindSession(sessions: seq<ChatSession>, id: JsString): (r: Option<ChatSession>)
    ensures r.None? <==> forall s :: s in sessions ==> s.id != id
    ensures r.Some? ==> exists i :: (0 <= i < |sessions| && sessions[i] == r.value && r.value.id == id
      && forall j :: 0 <= j < i ==> sessions[j].id != id)
  {
    if sessions == [] then None
    else if sessions[0].id == id then Some(sessions[0])
    else
      var r := FindSession(sessions[1..], id);
      assert forall s :: s in sessions[1..] ==> s in sessions;
      assert r.Some? ==> exists i :: (1 <= i < |sessions| && sessions[i] == r.value && r.value.id == id
        && forall j :: 0 <= j < i ==> sessions[j].id != id) by {
        if r.Some? {
          var i :| 0 <= i < |sessions[1..]| && sessions[1..][i] == r.value && r.value.id == id
            && forall j :: 0 <= j < i ==> sessions[1..][j].id != id;
          assert sessions[i + 1] == r.value;
          assert forall j :: 1 <= j < i + 1 ==> sessions[j].id != id by {
            forall j | 1 <= j < i + 1 ensures sessions[j].id != id {
              assert sessions[j] == sessions[1..][j - 1];
            }
          }
        }
      }
      r
  }

  /**
   * The `setSessions` updater: a session already listed leaves the list as
   * it is; otherwise it is put in front of the others with its title.
   */
  function RememberSession(sessions: seq<ChatSession>, id: JsString, title: string): (r: seq<ChatSession>)
    ensures (exists s :: s in sessions && s.id == id) ==> r == sessions
    ensures (forall s :: s in sessions ==> s.id != id) ==> r == [ChatSession(id, title)] + sessions
    ensures exists s :: s in r && s.id == id
    ensures UniqueIds(sessions) ==> UniqueIds(r)
  {
    match FindSession(sessions, id)
    case Some(_) => sessions
    case None =>
      var r := [ChatSession(id, title)] + sessions;
      assert r[0] in r;
      assert UniqueIds(sessions) ==> UniqueIds(r) by {
        if UniqueIds(sessions) {
          forall i, j | 0 <= i < j < |r| ensures r[i].id != r[j].id {
            if i == 0 {
              assert r[j] in sessions;
            } else {
              assert r[i] == sessions[i - 1] && r[j] == sessions[j - 1];
            }
          }
        }
      }
      r
  }

  /** `sessions.filter(s => s.id !== id)` (`RemoveSessionMembers` says what it keeps). */
  function RemoveSession(sessions: seq<ChatSession>, id: JsString): (r: seq<ChatSession>)
    ensures |r| <= |sessions|
  {
    if sessions == [] then []
    else if sessions[0].id != id then [sessions[0]] + RemoveSession(sessions[1..], id)
    else RemoveSession(sessions[1..], id)
  }

  /** The filter keeps exactly the sessions with another id, in their order. */
  lemma {:induction false} RemoveSessionMembers(sessions: seq<ChatSession>, id: JsString)
    ensures forall s :: s in RemoveSession(sessions, id) <==> s in sessions && s.id != id
    ensures IsSubsequence(RemoveSession(sessions, id), sessions)
  {
    if sessions != [] {
      var rest := sessions[1..];
      RemoveSessionMembers(rest, id);
      assert sessions == [sessions[0]] + rest;
      SubsequencePrepend(sessions[0], RemoveSession(rest, id), rest);
    }
  }

  /** Removing an id that is not listed changes nothing. */
  lemma {:induction false} RemoveAbsentSession(sessions: seq<ChatSession>, id: JsString)
    requires forall s :: s in sessions ==> s.id != id
    ensures RemoveSession(sessions, id) == sessions
  {
    if sessions != [] {
      assert sessions[0] in sessions;
      assert forall s :: s in sessions[1..] ==> s in sessions;
      RemoveAbsentSession(sessions[1..], id);
      assert sessions == [sessions[0]] + sessions[1..];
    }
  }

  /** A session whose id is not among a list of unique ids can be put in front of it. */
  lemma UniqueCons(x: ChatSession, sessions: seq<ChatSession>)
    requires UniqueIds(sessions) && forall s :: s in sessions ==> s.id != x.id
    ensures UniqueIds([x] + sessions)
  {
    var l := [x] + sessions;
    forall i, j | 0 <= i < j < |l| ensures l[i].id != l[j].id {
      assert l[j] == sessions[j - 1];
      if i == 0 {
        assert l[j] in sessions;
      } else {
        assert l[i] == sessions[i - 1];
      }
    }
  }

  /** The sessions after the first of a list with unique ids have unique ids, none the first's. */
  lemma UniqueTail(sessions: seq<ChatSession>)
    requires sessions != [] && UniqueIds(sessions)
    ensures UniqueIds(sessions[1..])
    ensures forall s :: s in sessions[1..] ==> s.id != sessions[0].id
  {
    var rest := sessions[1..];
    forall i, j | 0 <= i < j < |rest| ensures rest[i].id != rest[j].id {
      assert rest[i] == sessions[i + 1] && rest[j] == sessions[j + 1];
    }
    forall s | s in rest ensures s.id != sessions[0].id {
      var k :| 0 <= k < |rest| && rest[k] == s;
      assert sessions[k + 1] == s;
    }
  }

  /** Removing a session keeps the ids of the list unique. */
  lemma {:induction false} RemoveSessionKeepsUnique(sessions: seq<ChatSession>, id: JsString)
    requires UniqueIds(sessions)
    ensures UniqueIds(RemoveSession(sessions, id))
  {
    if sessions != [] {
      var rest := sessions[1..];
      UniqueTail(sessions);
      RemoveSessionKeepsUnique(rest, id);
      RemoveSessionMembers(rest, id);
      if sessions[0].id != id {
        UniqueCons(sessions[0], RemoveSession(rest, id));
      }
    }
  }

  /** Remembering a session and then deleting it leaves the list as deleting alone would. */
  lemma RemoveAfterRemember(sessions: seq<ChatSession>, id: JsString, title: string)
    ensures RemoveSession(RememberSession(sessions, id, title), id) == RemoveSession(sessions, id)
  {
    if forall s :: s in sessions ==> s.id != id {
      var l := [ChatSession(id, title)] + sessions;
      assert l[1..] == sessions;
    }
  }

  /** A second reply with the same session adds nothing to the sidebar. */
  lemma RememberSessionIdempotent(sessions: seq<ChatSession>, id: JsString, title: string, title': string)
    ensures RememberSession(RememberSession(sessions, id, title), id, title') == RememberSession(sessions, id, title)
  {
    var r := RememberSession(sessions, id, title);
    var s :| s in r && s.id == id;
  }

  /**
   * What `res.json()` yields for a POST response: its `reply`, and its
   * `sessionId`, which is `undefined` when the body has none.
   */
  function Received(resp: ChatRoute.Response): (o: FetchOutcome)
    requires resp.body.ReplyBody?
    ensures o.Replied? && o.reply == resp.body.reply
    ensures o.sessionId.Str? <==> resp.body.sessionId.Some?
    ensures resp.body.sessionId.None? ==> o.sessionId == Undefined
    ensures resp.body.sessionId.Some? ==> o.sessionId == Str(resp.body.sessionId.value)
  {
    match resp.body.sessionId
    case Some(cid) => Replied(resp.body.reply, Str(cid))
    case None => Replied(resp.body.reply, Undefined)
  }

  /**
   * After a 429, 400 or 500 reply the page's session is `undefined`, so the
   * next message it sends carries no session and the server starts a new
   * conversation; the sidebar gains an entry without an id unless one is
   * already listed.
   */
  lemma ErrorReplyForgetsSession(resp: ChatRoute.Response, sessions: seq<ChatSession>, title: string)
    requires resp in {ChatRoute.TooManyRequests, ChatRoute.EmptyMessage, ChatRoute.ServerError}
    ensures Received(resp).sessionId == Undefined
    ensures !ChatRoute.ReusesSession(ServerSession(Received(resp).sessionId))
    ensures (forall s :: s in sessions ==> s.id != Undefined) ==>
      RememberSession(sessions, Received(resp).sessionId, title) == [ChatSession(Undefined, title)] + sessions
  {
  }

  /**
   * After a 200 reply the page holds the conversation's id, and the next
   * message it sends continues that conversation.
   */
  lemma SuccessReplyKeepsSession(resp: ChatRoute.Response, cid: string)
    requires resp.body.ReplyBody? && resp.body.sessionId == Some(cid) && cid != ""
    ensures Received(resp).sessionId == Str(cid)
    ensures ServerSession(Received(resp).sessionId) == Some(cid)
    ensures ChatRoute.ReusesSession(ServerSession(Received(resp).sessionId))
  {
  }

  /** The page's React state. */
  class Page {
    var messages: seq<UiMessage>
    var input: string
    var loading: bool
    var sessionId: JsString
    var sessions: seq<ChatSession>

    constructor ()
      ensures messages == [] && input == "" && !loading && sessionId == Null && sessions == []
    {
      messages, input, loading, sessionId, sessions := [], "", false, Null, [];
    }

    /**
     * The synchronous start of `sendMessage`: nothing happens while the
     * input is only whitespace or a send is in progress; otherwise the input
     * (untrimmed) is taken and cleared, the send is marked in progress, the
     * user's message joins the transcript, and the body to POST is returned.
     */
    method BeginSend() returns (body: Option<ChatRoute.PostBody>)
      modifies this
      ensures old(AllWhitespace(input) || loading) ==> body.None? && unchanged(this)
      ensures old(!AllWhitespace(input) && !loading) ==>
        && body == Some(ChatRoute.PostBody(Some(old(input)), ServerSession(old(sessionId))))
        && input == "" && loading
        && messages == old(messages) + [UiMessage("user", old(input))]
        && sessionId == old(sessionId) && sessions == old(sessions)
    {
      if !Truthy(Trim(input)) || loading {
        return None;
      }
      var userMessage := input;
      input := "";
      loading := true;
      messages := messages + [UiMessage("user", userMessage)];
      body := Some(ChatRoute.PostBody(Some(userMessage), ServerSession(sessionId)));
    }

    /**
     * The rest of `sendMessage`, once the POST for `userMessage` has ended:
     * the reply joins the transcript whatever the status; on a reply the
     * session becomes `data.sessionId` and is remembered in the sidebar; on
     * a throw the error text is shown. The send is over in every case.
     */
    method FinishSend(userMessage: string, outcome: FetchOutcome)
      modifies this
      ensures !loading && input == old(input)
      ensures outcome.Threw? ==>
        && messages == old(messages) + [UiMessage("ai", ErrorText)]
        && sessionId == old(sessionId) && sessions == old(sessions)
      ensures outcome.Replied? ==>
        && messages == old(messages) + [UiMessage("ai", outcome.reply)]
        && sessionId == outcome.sessionId
        && sessions == RememberSession(old(sessions), outcome.sessionId, Title(userMessage))
    {
      loading := false;
      match outcome
      case Replied(reply, sid) =>
        messages := messages + [UiMessage("ai", reply)];
        sessionId := sid;
        sessions := RememberSession(sessions, sid, Title(userMessage));
      case Threw =>
        messages := messages + [UiMessage("ai", ErrorText)];
    }

    /**
     * `deleteChat(id)`, with `fetchOk` telling whether the DELETE request
     * was sent (when it throws, nothing after it runs): the sidebar drops
     * that session, and if it was the current one the page starts afresh.
     */
    method DeleteChat(id: JsString, fetchOk: bool)
      modifies this
      ensures !fetchOk ==> unchanged(this)
      ensures fetchOk ==>
        && sessions == RemoveSession(old(sessions), id)
        && input == old(input) && loading == old(loading)
        && (old(sessionId) == id ==> sessionId == Null && messages == [])
        && (old(sessionId) != id ==> sessionId == old(sessionId) && messages == old(messages))
    {
      if !fetchOk {
        return;
      }
      sessions := RemoveSession(sessions, id);
      if sessionId == id {
        sessionId := Null;
        messages := [];
      }
    }

    /** The `newChat` action offered to the navigation bar: an empty transcript and no session. */
    method NewChat()
      modifies this
      ensures messages == [] && sessionId == Null
      ensures input == old(input) && loading == old(loading) && sessions == old(sessions)
    {
      messages := [];
      sessionId := Null;
    }
  }
}
