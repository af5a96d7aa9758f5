/**
 * The completion client: it frames the conversation for the hosted model
 * and turns the model's answer into reply text. The network call itself is
 * an oracle passed in by the caller.
 */
module Groq {
  import opened Wrappers

  datatype Role = System | User | Assistant

  /** One entry of the request's message list. */
  datatype ChatMessage = ChatMessage(role: Role, content: string)

  /** The fixed instruction that opens every request. */
  const SystemPrompt: string :=
    "\nYou are a helpful customer support agent.\n\n"
    + "Only answer questions related to the product:\n- Shipping\n- Orders\n- Returns & refunds\n- Support hours\n\n"
    + "Policies:\n- Shipping: Worldwide, 5–10 business days\n- Returns: 30-day return policy\n"
    + "- Support hours: Mon–Fri, 9 AM – 6 PM IST\n\n"
    + "If a question is unrelated, politely redirect.\n"

  /** What replaces a completion that carries no content. */
  const Fallback: string := "Sorry, I couldn't answer that."

  /**
   * What the completion endpoint answers to a request: the call throws, or it
   * returns a list of choices whose message content may be null.
   */
  datatype Completion = CallFailed | Choices(contents: seq<Option<string>>)

  /** The hosted model, as a function of the request's message list. */
  type Completer = seq<ChatMessage> -> Completion

  /** Why `generateReply` throws. */
  datatype ProviderError = RequestFailed | NoChoices

  /**
   * The request's message list: the system prompt, then the history as
   * given, then the new user message.
   */
  function RequestMessages(history: seq<ChatMessage>, message: string): (r: seq<ChatMessage>)
    ensures |r| == |history| + 2
    ensures r[0] == ChatMessage(System, SystemPrompt)
    ensures r[1..|r| - 1] == history
    ensures r[|r| - 1] == ChatMessage(User, message)
  {
    [ChatMessage(System, SystemPrompt)] + history + [ChatMessage(User, message)]
  }

  /**
   * The reply text for the first choice's content: the content itself when
   * present (even when empty), the fallback when it is null.
   */
  function ReplyText(content: Option<string>): (r: string)
    ensures content.Some? ==> r == content.value
    ensures content.None? ==> r == Fallback
  {
    content.GetOr(Fallback)
  }

  /**
   * `generateReply(history, message)`: asks the model and returns the first
   * choice's text; throws when the call fails or returns no choice.
   */
  function GenerateReply(history: seq<ChatMessage>, message: string, complete: Completer): (r: Result<string, ProviderError>)
    ensures var c := complete(RequestMessages(history, message));
      && (r.Ok? <==> c.Choices? && c.contents != [])
      && (r.Ok? ==> r.value == ReplyText(c.contents[0]))
  {
    match complete(RequestMessages(history, message))
    case CallFailed => Err(RequestFailed)
    case Choices(contents) =>
      if contents == [] then Err(NoChoices) else Ok(ReplyText(contents[0]))
  }
}
