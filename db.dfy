/**
 * The database client the chat route talks to, as an in-memory store over the
 * two tables: inserts that enforce the constraints of the schema, the
 * `WHERE conversation_id = … ORDER BY created_at [LIMIT n]` query, and the
 * conversation delete with its `ON DELETE CASCADE`.
 */
module Db {
  import opened Wrappers
  import opened Schema
  import opened Sequences

  /** `WHERE conversation_id = cid`, in insertion order (`OfConversationMembers`). */
  function OfConversation(ms: seq<Message>, cid: Uuid): (r: seq<Message>)
    ensures |r| <= |ms|
    decreases |ms|
  {
    if ms == [] then []
    else
      var init, last := ms[..|ms| - 1], ms[|ms| - 1];
      var r := OfConversation(init, cid);
      if last.conversationId == cid then r + [last] else r
  }

  /** The filter keeps exactly the rows of conversation `cid`, in their order. */
  lemma {:induction false} OfConversationMembers(ms: seq<Message>, cid: Uuid)
    ensures forall m :: m in OfConversation(ms, cid) <==> m in ms && m.conversationId == cid
    ensures IsSubsequence(OfConversation(ms, cid), ms)
    decreases |ms|
  {
    if ms != [] {
      var init, last := ms[..|ms| - 1], ms[|ms| - 1];
      assert ms == init + [last];
      OfConversationMembers(init, cid);
      var r := OfConversation(init, cid);
      if last.conversationId == cid {
        assert (r + [last])[..|r|] == r;
      }
    }
  }

  /** `WHERE conversation_id <> cid`, in insertion order: what a cascade keeps. */
  function NotOfConversation(ms: seq<Message>, cid: Uuid): (r: seq<Message>)
    ensures forall m :: m in r <==> m in ms && m.conversationId != cid
    ensures IsSubsequence(r, ms)
    decreases |ms|
  {
    if ms == [] then []
    else
      var init, last := ms[..|ms| - 1], ms[|ms| - 1];
      assert ms == init + [last];
      var r := NotOfConversation(init, cid);
      if last.conversationId != cid then
        assert (r + [last])[..|r|] == r;
        r + [last]
      else
        r
  }

  /** No row of a conversation means an empty filter. */
  lemma {:induction false} NoneOfConversation(ms: seq<Message>, cid: Uuid)
    requires forall m :: m in ms ==> m.conversationId != cid
    ensures OfConversation(ms, cid) == []
    decreases |ms|
  {
    if ms != [] {
      var init := ms[..|ms| - 1];
      assert forall m :: m in init ==> m in ms;
      NoneOfConversation(init, cid);
    }
  }

  /** Message `m` appended to the table shows up last among its conversation's rows. */
  lemma OfConversationAppend(ms: seq<Message>, m: Message, cid: Uuid)
    ensures OfConversation(ms + [m], cid)
         == OfConversation(ms, cid) + (if m.conversationId == cid then [m] else [])
  {
    assert (ms + [m])[..|ms|] == ms;
  }

  /** Keeping the messages of other conversations keeps the primary keys unique. */
  lemma {:induction false} NotOfConversationUnique(ms: seq<Message>, cid: Uuid)
    requires UniqueMessageIds(ms)
    ensures UniqueMessageIds(NotOfConversation(ms, cid))
    decreases |ms|
  {
    if ms != [] {
      var init, last := ms[..|ms| - 1], ms[|ms| - 1];
      assert ms == init + [last];
      NotOfConversationUnique(init, cid);
      var r := NotOfConversation(init, cid);
      forall x | x in r ensures x.id != last.id {
        var i :| 0 <= i < |init| && init[i] == x;
      }
    }
  }

  /** Filtering an already filtered table again changes nothing. */
  lemma {:induction false} NotOfConversationTwice(ms: seq<Message>, cid: Uuid)
    ensures NotOfConversation(NotOfConversation(ms, cid), cid) == NotOfConversation(ms, cid)
    decreases |ms|
  {
    if ms != [] {
      var init, last := ms[..|ms| - 1], ms[|ms| - 1];
      assert ms == init + [last];
      NotOfConversationTwice(init, cid);
      var r := NotOfConversation(init, cid);
      if last.conversationId != cid {
        assert (r + [last])[..|r|] == r;
      }
    }
  }

  /** Timestamps never decrease along `ms`. */
  predicate ByCreatedAt(ms: seq<Message>) {
    forall i, j :: 0 <= i < j < |ms| ==> ms[i].createdAt <= ms[j].createdAt
  }

  /**
   * Puts `m` into `s` before the first row that is not older. `m` stands for
   * a row inserted before all of `s`, so ties keep insertion order.
   */
  function InsertByCreatedAt(m: Message, s: seq<Message>): (r: seq<Message>)
    ensures |r| == |s| + 1
    ensures multiset(r) == multiset(s) + multiset{m}
  {
    if s == [] || m.createdAt <= s[0].createdAt then
      [m] + s
    else
      assert s == [s[0]] + s[1..];
      [s[0]] + InsertByCreatedAt(m, s[1..])
  }

  /** Inserting into rows in timestamp order keeps them in timestamp order. */
  lemma {:induction false} InsertKeepsOrder(m: Message, s: seq<Message>)
    requires ByCreatedAt(s)
    ensures ByCreatedAt(InsertByCreatedAt(m, s))
  {
    if s != [] && m.createdAt > s[0].createdAt {
      assert ByCreatedAt(s[1..]);
      InsertKeepsOrder(m, s[1..]);
      var rest := InsertByCreatedAt(m, s[1..]);
      assert s == [s[0]] + s[1..];
      forall k | 0 <= k < |rest| ensures s[0].createdAt <= rest[k].createdAt {
        assert rest[k] in multiset(rest);
        assert rest[k] == m || rest[k] in multiset(s[1..]);
      }
    }
  }

  /**
   * `ORDER BY created_at`: a stable sort by timestamp, rows with equal
   * timestamps staying in insertion order. It returns the same rows
   * (`OrderByCreatedAtSorted` shows they come back in timestamp order).
   */
  function OrderByCreatedAt(ms: seq<Message>): (r: seq<Message>)
    ensures |r| == |ms|
    ensures multiset(r) == multiset(ms)
  {
    if ms == [] then []
    else
      assert ms == [ms[0]] + ms[1..];
      InsertByCreatedAt(ms[0], OrderByCreatedAt(ms[1..]))
  }

  /** The ordered rows are in timestamp order. */
  lemma {:induction false} OrderByCreatedAtSorted(ms: seq<Message>)
    ensures ByCreatedAt(OrderByCreatedAt(ms))
  {
    if ms != [] {
      OrderByCreatedAtSorted(ms[1..]);
      InsertKeepsOrder(ms[0], OrderByCreatedAt(ms[1..]));
    }
  }

  /** When the rows were inserted in timestamp order, ordering them changes nothing. */
  lemma {:induction false} OrderedRowsStay(ms: seq<Message>)
    requires ByCreatedAt(ms)
    ensures OrderByCreatedAt(ms) == ms
  {
    if ms != [] {
      assert ByCreatedAt(ms[1..]);
      OrderedRowsStay(ms[1..]);
      assert ms == [ms[0]] + ms[1..];
    }
  }

  /** A subsequence of rows in timestamp order is in timestamp order. */
  lemma {:induction false} OfConversationKeepsOrder(ms: seq<Message>, cid: Uuid)
    requires ByCreatedAt(ms)
    ensures ByCreatedAt(OfConversation(ms, cid))
    decreases |ms|
  {
    if ms != [] {
      var init, last := ms[..|ms| - 1], ms[|ms| - 1];
      assert ms == init + [last];
      assert ByCreatedAt(init);
      OfConversationKeepsOrder(init, cid);
      OfConversationMembers(init, cid);
      var r := OfConversation(init, cid);
      forall x | x in r ensures x.createdAt <= last.createdAt {
        var i :| 0 <= i < |init| && init[i] == x;
      }
    }
  }

  /** In rows ordered by timestamp, no row after position `k` is older than one before it. */
  lemma PrefixIsEarliest(s: seq<Message>, k: nat)
    requires ByCreatedAt(s) && k <= |s|
    ensures forall x: Message, y: Message :: x in s[..k] && y in multiset(s) - multiset(s[..k]) ==> x.createdAt <= y.createdAt
  {
    assert s == s[..k] + s[k..];
    assert multiset(s) - multiset(s[..k]) == multiset(s[k..]);
    forall x: Message, y: Message | x in s[..k] && y in multiset(s) - multiset(s[..k])
      ensures x.createdAt <= y.createdAt
    {
      var i :| 0 <= i < k && s[i] == x;
      assert y in s[k..];
      var j :| k <= j < |s| && s[j] == y;
    }
  }

  /**
   * `SELECT * FROM messages WHERE conversation_id = cid ORDER BY created_at`,
   * with `LIMIT n` when `limit` is `Some(n)`.
   */
  function Select(t: Tables, cid: Uuid, limit: Option<nat>): (r: seq<Message>)
    ensures ByCreatedAt(r)
    ensures forall m :: m in r ==> m in t.messages && m.conversationId == cid
    ensures limit.None? ==> multiset(r) == multiset(OfConversation(t.messages, cid))
    ensures limit.Some? ==>
      var n := |OfConversation(t.messages, cid)|;
      && |r| == (if n < limit.value then n else limit.value)
      && multiset(r) <= multiset(OfConversation(t.messages, cid))
  {
    var all := OfConversation(t.messages, cid);
    var sorted := OrderByCreatedAt(all);
    OrderByCreatedAtSorted(all);
    OfConversationMembers(t.messages, cid);
    SameMembers(sorted, all);
    match limit
    case None => sorted
    case Some(n) =>
      TakeOfOrdered(sorted, n);
      Take(sorted, n)
  }

  /** Rows with the same multiset are the same rows. */
  lemma SameMembers(a: seq<Message>, b: seq<Message>)
    requires multiset(a) == multiset(b)
    ensures forall m :: m in a <==> m in b
  {
    forall m ensures m in a <==> m in b {
      assert m in a <==> m in multiset(a);
    }
  }

  /** A `LIMIT` keeps rows of its input, and keeps them ordered. */
  lemma TakeOfOrdered(s: seq<Message>, n: nat)
    requires ByCreatedAt(s)
    ensures ByCreatedAt(Take(s, n))
    ensures multiset(Take(s, n)) <= multiset(s)
    ensures forall m :: m in Take(s, n) ==> m in s
  {
    var r := Take(s, n);
    assert s == r + s[|r|..];
  }

  /** `INSERT INTO conversations (id, created_at) VALUES (id, now)`. */
  function AddConversation(t: Tables, id: Uuid, now: Timestamp): (r: Result<Tables, StoreError>)
    ensures r.Ok? <==> id !in t.conversations
    ensures r.Ok? ==> r.value.messages == t.messages && r.value.conversations.Keys == t.conversations.Keys + {id}
    ensures r.Ok? ==> r.value.conversations[id] == Conversation(id, now)
    ensures r.Ok? ==> forall k :: k in t.conversations ==> r.value.conversations[k] == t.conversations[k]
    ensures Consistent(t) && r.Ok? ==> Consistent(r.value)
  {
    if id in t.conversations then Err(UniqueViolation)
    else Ok(t.(conversations := t.conversations[id := Conversation(id, now)]))
  }

  /** `INSERT INTO messages VALUES (m)`: fails on a taken key or a missing conversation. */
  function AddMessage(t: Tables, m: Message): (r: Result<Tables, StoreError>)
    ensures r.Ok? <==> m.id !in MessageIds(t.messages) && m.conversationId in t.conversations
    ensures r.Ok? ==> r.value.conversations == t.conversations && r.value.messages == t.messages + [m]
    ensures Consistent(t) && r.Ok? ==> Consistent(r.value)
  {
    if m.id in MessageIds(t.messages) then Err(UniqueViolation)
    else if m.conversationId !in t.conversations then Err(ForeignKeyViolation)
    else Ok(t.(messages := t.messages + [m]))
  }

  /** `DELETE FROM conversations WHERE id = id`, with its cascade to `messages`. */
  function CascadeDelete(t: Tables, id: Uuid): (r: Tables)
    ensures Consistent(t) ==> Consistent(r)
  {
    var r := Tables(t.conversations - {id}, NotOfConversation(t.messages, id));
    assert Consistent(t) ==> Consistent(r) by {
      if Consistent(t) {
        NotOfConversationUnique(t.messages, id);
        forall i | 0 <= i < |r.messages| ensures r.messages[i].conversationId in r.conversations {
          assert r.messages[i] in t.messages;
        }
      }
    }
    r
  }

  /**
   * Deleting a conversation removes it and exactly the messages that
   * reference it; the other conversations and messages stay, in order.
   */
  lemma CascadeDeleteRemovesExactly(t: Tables, id: Uuid)
    ensures var r := CascadeDelete(t, id);
      && r.conversations.Keys == t.conversations.Keys - {id}
      && (forall k :: k in r.conversations ==> r.conversations[k] == t.conversations[k])
      && (forall m :: m in r.messages <==> m in t.messages && m.conversationId != id)
      && IsSubsequence(r.messages, t.messages)
      && |r.messages| + |OfConversation(t.messages, id)| == |t.messages|
      && Select(r, id, None) == []
  {
    NoneOfConversation(CascadeDelete(t, id).messages, id);
    FilterPartition(t.messages, id);
  }

  /** Every row is either kept by the cascade or is one of the deleted conversation's. */
  lemma {:induction false} FilterPartition(ms: seq<Message>, cid: Uuid)
    ensures |NotOfConversation(ms, cid)| + |OfConversation(ms, cid)| == |ms|
    decreases |ms|
  {
    if ms != [] {
      FilterPartition(ms[..|ms| - 1], cid);
    }
  }

  /** Deleting the same conversation a second time changes nothing. */
  lemma CascadeDeleteIdempotent(t: Tables, id: Uuid)
    ensures CascadeDelete(CascadeDelete(t, id), id) == CascadeDelete(t, id)
  {
    NotOfConversationTwice(t.messages, id);
  }

  /** The database the route writes to. */
  class Store {
    var conversations: map<Uuid, Conversation>
    var messages: seq<Message>

    function Snapshot(): Tables
      reads this
    {
      Tables(conversations, messages)
    }

    ghost predicate Valid()
      reads this
    {
      Consistent(Snapshot())
    }

    constructor ()
      ensures Valid() && Snapshot() == Tables(map[], [])
    {
      conversations := map[];
      messages := [];
    }

    /** Inserts a conversation row; `ok` is false when the statement fails. */
    method InsertConversation(id: Uuid, now: Timestamp) returns (ok: bool)
      requires Valid()
      modifies this
      ensures Valid()
      ensures ok == AddConversation(old(Snapshot()), id, now).Ok?
      ensures Snapshot() == if ok then AddConversation(old(Snapshot()), id, now).value else old(Snapshot())
    {
      if id in conversations {
        return false;
      }
      conversations := conversations[id := Conversation(id, now)];
      return true;
    }

    /** Inserts a message row; `ok` is false when the statement fails. */
    method InsertMessage(m: Message) returns (ok: bool)
      requires Valid()
      modifies this
      ensures Valid()
      ensures ok == AddMessage(old(Snapshot()), m).Ok?
      ensures Snapshot() == if ok then AddMessage(old(Snapshot()), m).value else old(Snapshot())
    {
      if m.id in MessageIds(messages) || m.conversationId !in conversations {
        return false;
      }
      messages := messages + [m];
      return true;
    }

    /** Deletes a conversation and, by cascade, its messages. */
    method DeleteConversation(id: Uuid)
      requires Valid()
      modifies this
      ensures Valid()
      ensures Snapshot() == CascadeDelete(old(Snapshot()), id)
    {
      conversations := conversations - {id};
      messages := NotOfConversation(messages, id);
      assert Snapshot() == CascadeDelete(old(Snapshot()), id);
    }
  }
}
