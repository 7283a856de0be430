/** The chat router's helpers (backend/app/routers/chat.py): the message
    list sent to the model, the sources returned with the answer, and the
    mapping from a failure to the HTTP error the endpoint raises. */
module Chat {
  import opened Wrappers
  import opened Schemas
  import opened Retrieval
  import opened SystemPrompt

  // ---------------------------------------------------------------------
  // _build_messages

  /** The message list for the model: the history's role/content pairs,
      then the current message as the user's. */
  function MessagesFor(history: seq<ChatMessage>, current: string): seq<ChatMessage> {
    history + [ChatMessage(RoleUser, current)]
  }

  /** `_build_messages`: copy the history, then append the user message. */
  method BuildMessages(history: seq<ChatMessage>, current: string) returns (messages: seq<ChatMessage>)
    ensures |messages| == |history| + 1
    ensures messages[..|history|] == history
    ensures messages[|history|] == ChatMessage(RoleUser, current)
    ensures messages == MessagesFor(history, current)
  {
    messages := [];
    for i := 0 to |history|
      invariant messages == history[..i]
    {
      messages := messages + [ChatMessage(history[i].role, history[i].content)];
    }
    messages := messages + [ChatMessage(RoleUser, current)];
  }

  /** From a valid request, every message sent to the model has a valid role
      and non-empty content. */
  lemma MessagesFromValidRequestAreValid(r: ChatRequest)
    requires ValidRequest(r)
    ensures forall k | 0 <= k < |MessagesFor(r.conversationHistory, r.message)| ::
      ValidMessage(MessagesFor(r.conversationHistory, r.message)[k])
  {
    var ms := MessagesFor(r.conversationHistory, r.message);
    forall k | 0 <= k < |ms| ensures ValidMessage(ms[k]) {
      if k < |r.conversationHistory| {
        assert ms[k] == r.conversationHistory[k];
      }
    }
  }

  // ---------------------------------------------------------------------
  // _format_sources

  const SourceTextLimit := 500
  const Ellipsis := "..."

  /** `text[:500] + "..." if len(text) > 500 else text`. */
  function Truncate(text: string): (r: string)
    ensures |r| <= SourceTextLimit + |Ellipsis|
    ensures |text| <= SourceTextLimit ==> r == text
    ensures |text| > SourceTextLimit ==> |r| == SourceTextLimit + |Ellipsis|
    ensures |text| > SourceTextLimit ==> r[..SourceTextLimit] == text[..SourceTextLimit] && r[SourceTextLimit..] == Ellipsis
  {
    if |text| > SourceTextLimit then text[..SourceTextLimit] + Ellipsis else text
  }

  /** Truncating an already truncated text changes nothing. */
  lemma TruncateIdempotent(text: string)
    ensures Truncate(Truncate(text)) == Truncate(text)
  {
    if |text| > SourceTextLimit {
      var t := Truncate(text);
      assert t[..SourceTextLimit] == text[..SourceTextLimit];
      assert t[..SourceTextLimit] + Ellipsis == t;
    }
  }

  /** `metadata.get(key)`. */
  function Lookup(m: Metadata, key: string): (r: Option<string>)
    ensures r.Some? <==> key in m
    ensures r.Some? ==> r.value == m[key]
  {
    if key in m then Some(m[key]) else None
  }

  /** The source shown for one retrieved chunk. */
  function SourceOf(c: RetrievedChunk): SourceChunk {
    NewSourceChunk(c.id, Truncate(c.text), c.sourceType, c.relevanceScore,
                   Lookup(c.metadata, "date"), Lookup(c.metadata, "title"))
  }

  /** `_format_sources`: one source per chunk, in order. */
  method FormatSources(chunks: seq<RetrievedChunk>) returns (sources: seq<SourceChunk>)
    ensures |sources| == |chunks|
    ensures forall k | 0 <= k < |chunks| :: sources[k] == SourceOf(chunks[k])
  {
    sources := [];
    for i := 0 to |chunks|
      invariant |sources| == i
      invariant forall k | 0 <= k < i :: sources[k] == SourceOf(chunks[k])
    {
      var c := chunks[i];
      var text := if |c.text| > SourceTextLimit then c.text[..SourceTextLimit] + Ellipsis else c.text;
      var source := NewSourceChunk(c.id, text, c.sourceType, c.relevanceScore,
                                   Lookup(c.metadata, "date"), Lookup(c.metadata, "title"));
      sources := sources + [source];
    }
  }

  /** What a source keeps of its chunk: the id, source type and score, a
      text of at most 503 characters that is the chunk's own text when that
      has at most 500, and a date and title exactly when the metadata has
      them. */
  lemma SourceKeepsChunk(c: RetrievedChunk)
    ensures SourceOf(c).id == c.id && SourceOf(c).sourceType == c.sourceType
    ensures SourceOf(c).relevanceScore == c.relevanceScore
    ensures |SourceOf(c).text| <= 503
    ensures |c.text| <= 500 ==> SourceOf(c).text == c.text
    ensures SourceOf(c).date.Some? <==> "date" in c.metadata
    ensures SourceOf(c).title.Some? <==> "title" in c.metadata
  {
  }

  // ---------------------------------------------------------------------
  // The exception handlers of `chat`

  /** What the body of `chat` can raise: the model service's `LLMError`, a
      `ValueError` (a missing API key), or any other exception. */
  datatype Failure = LlmError(message: string) | ValueError(message: string) | OtherError(message: string)

  datatype HttpError = HttpError(statusCode: int, detail: string)

  const LlmErrorPrefix := "Failed to get response from AI service: "
  const UnexpectedDetail := "An unexpected error occurred"

  /** The `HTTPException` each `except` clause raises. */
  function ErrorResponse(f: Failure): (e: HttpError)
    ensures f.LlmError? <==> e.statusCode == 503
    ensures e.statusCode == 503 || e.statusCode == 500
    ensures f.LlmError? ==> e.detail == LlmErrorPrefix + f.message
    ensures f.ValueError? ==> e.detail == f.message
    ensures f.OtherError? ==> e.detail == UnexpectedDetail
  {
    match f
    case LlmError(m) => HttpError(503, LlmErrorPrefix + m)
    case ValueError(m) => HttpError(500, m)
    case OtherError(_) => HttpError(500, UnexpectedDetail)
  }

  // ---------------------------------------------------------------------
  // The chat path

  /** On the chat path the prompt is built from `_format_context`, which
      never returns the empty string, so the Retrieved Context section is
      always present and ends the prompt. */
  lemma ContextSectionAlwaysPresent(persona: string, personal: seq<RetrievedChunk>, wisdom: seq<RetrievedChunk>)
    ensures PromptFor(persona, FormatContextSpec(personal, wisdom))
         == persona + ContextHeading + ContextIntro + "\n\n" + FormatContextSpec(personal, wisdom)
  {
    ContextSentinelIffEmpty(personal, wisdom);
  }
}
