/** The request and response records of the chat API
    (backend/app/models/schemas.py), with the field constraints the
    request validation enforces written as validity predicates. */
module Schemas {
  import opened Wrappers

  const RoleUser := "user"
  const RoleAssistant := "assistant"

  /** `ChatMessage`. */
  datatype ChatMessage = ChatMessage(role: string, content: string)

  /** `role: Literal["user", "assistant"]` and `content` of length at least
      one. */
  predicate ValidMessage(m: ChatMessage) {
    (m.role == RoleUser || m.role == RoleAssistant) && |m.content| >= 1
  }

  /** `ChatRequest`. */
  datatype ChatRequest = ChatRequest(message: string, conversationHistory: seq<ChatMessage>)

  /** `message` of length at least one, and every history message valid. */
  predicate ValidRequest(r: ChatRequest) {
    |r.message| >= 1 && forall k | 0 <= k < |r.conversationHistory| :: ValidMessage(r.conversationHistory[k])
  }

  /** Building a request: the history defaults to the empty list. */
  function NewChatRequest(message: string, history: Option<seq<ChatMessage>> := None): (r: ChatRequest)
    ensures r.message == message
    ensures history.None? ==> r.conversationHistory == []
    ensures history.Some? ==> r.conversationHistory == history.value
  {
    ChatRequest(message, history.GetOr([]))
  }

  /** A request with no history is valid exactly when its message is not
      empty. */
  lemma FirstMessageValid(message: string)
    ensures ValidRequest(NewChatRequest(message)) <==> message != ""
  {
  }

  /** `SourceChunk`; `date` and `title` are optional. */
  datatype SourceChunk = SourceChunk(
    id: string,
    text: string,
    sourceType: string,
    date: Option<string>,
    title: Option<string>,
    relevanceScore: real)

  /** Building a source: `date` and `title` default to `None`. */
  function NewSourceChunk(id: string, text: string, sourceType: string, relevanceScore: real,
                          date: Option<string> := None, title: Option<string> := None): (s: SourceChunk)
    ensures s.id == id && s.text == text && s.sourceType == sourceType && s.relevanceScore == relevanceScore
    ensures s.date == date && s.title == title
  {
    SourceChunk(id, text, sourceType, date, title, relevanceScore)
  }
}
