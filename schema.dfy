/**
 * The two relational tables of the chat service and the integrity rules the
 * database enforces on them: primary keys, the non-null foreign key from a
 * message to its conversation, and columns that are never null.
 */
module Schema {

  /** A `uuid` column value; the application handles it as a string. */
  type Uuid = string

  /** A `timestamp` column value: milliseconds on the database clock. */
  type Timestamp = int

  /** A row of `conversations`. */
  datatype Conversation = Conversation(id: Uuid, createdAt: Timestamp)

  /**
   * A row of `messages`. Every column is declared not-null, so each field is
   * always present; `sender` holds "user" or "ai" by convention only.
   */
  datatype Message = Message(
    id: Uuid,
    conversationId: Uuid,
    sender: string,
    text: string,
    createdAt: Timestamp)

  /**
   * The database contents: conversations by primary key, and messages in the
   * order they were inserted.
   */
  datatype Tables = Tables(conversations: map<Uuid, Conversation>, messages: seq<Message>)

  /** A database statement that violates a constraint fails with one of these. */
  datatype StoreError = UniqueViolation | ForeignKeyViolation

  /** No two messages share a primary key. */
  predicate UniqueMessageIds(ms: seq<Message>) {
    forall i, j :: 0 <= i < j < |ms| ==> ms[i].id != ms[j].id
  }

  /** Every message references an existing conversation. */
  predicate ReferencesExist(ms: seq<Message>, conversations: map<Uuid, Conversation>) {
    forall i :: 0 <= i < |ms| ==> ms[i].conversationId in conversations
  }

  /** The integrity constraints of the two tables. */
  predicate Consistent(t: Tables) {
    && (forall id :: id in t.conversations ==> t.conversations[id].id == id)
    && UniqueMessageIds(t.messages)
    && ReferencesExist(t.messages, t.conversations)
  }

  /** The primary keys present in `messages`. */
  function MessageIds(ms: seq<Message>): set<Uuid> {
    set m | m in ms :: m.id
  }
}
