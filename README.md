# MentorAI backend core, modelled in Dafny

MentorAI is a retrieval-augmented "mentor" chat service. Two ingestion
scripts turn a Day One journal export and a WordPress export into chunk
records for a vector store; at chat time the service searches the store,
splits the hits into the user's personal history and contemplative texts,
formats them into a context block, builds the system prompt and the message
list, and reports the chunks it used as sources.

This project models that logic and proves properties of it:

- `Chunker` — `estimate_tokens` and the paragraph-preferring greedy
  `chunk_text`, which both ingestion scripts carry as identical copies. It is
  modelled once. `ChunkText` is the imperative loop, with its
  `current_chunk`/`current_tokens` accumulator. `ChunkSpec` is a left fold
  that specifies it, and the lemmas characterise the fold as the unique
  greedy packing of the pieces. The fold counts `current_tokens` as the sum
  of the per-piece estimates, as the source does.
  One behaviour follows from the source and is proved as an example
  (`EmptyChunkFromEmptyFragment`): a paragraph over the maximum that holds
  `". . "` yields an empty `". "`-fragment, and `chunk_text` can emit it as an
  empty chunk.
- `PyText` — the parts of Python's `str` the core relies on:
  - `split` with an explicit separator (left to right, non-overlapping, empty
    pieces kept), proved to round-trip with `join` and to be unique;
  - `strip` over CPython's whitespace set;
  - ASCII `lower`/`title`;
  - decimal rendering of naturals.
- `IngestRecords` — the `<owner>_chunk_<i>` ids and the comma-joined
  metadata lists shared by both scripts.
- `DayOne` — `parse_dayone_entry` and `process_entry`.
- `WordPress`:
  - `parse_wordpress_item`, over an abstract item record;
  - `process_post`, with `strip_html` as a function parameter;
  - `clean_xml_content`, the `Char` production of XML 1.0 (section 2.2 of the
    W3C Recommendation) applied as a character filter.
- `Retrieval`:
  - chunk classification;
  - assembly of `retrieve` from the store's parallel result lists, which are
    an input (a `search` function);
  - the order-preserving personal/wisdom partition;
  - the three context formatters.
- `SystemPrompt` — the template as a persona prefix followed by one
  `{context_section}` field, a model of `str.format` over such templates,
  and `get_system_prompt`. The persona text is a constant; the lemmas are
  stated for any persona (`PromptFor`), so they hold for that constant.
- `Schemas` — the validity constraints and defaults of `ChatMessage`,
  `ChatRequest` and `SourceChunk`.
- `Chat` — `_build_messages`, `_format_sources` with its 500-character
  truncation, and the exception-to-HTTP-status mapping of the chat endpoint.

`Wrappers` (Option, Result) and `Seqs` (flatten, filter) are support modules.

## Model

| member | source | states |
|---|---|---|
| Chunker.EstimateTokens | backend/scripts/ingest_wordpress.py:45-55 | the estimate is the length divided by four, rounded down: `4n <= len(text) < 4n + 4` |
| Chunker.ChunkText | backend/scripts/ingest_wordpress.py:58-111 | the accumulator loop returns exactly the chunking `ChunkSpec` defines (passthrough, paragraph split, sentence fallback, greedy grouping, final flush); the Day One copy, backend/scripts/ingest_dayone.py lines 48-101, is the same definition and is modelled by this one method |
| Chunker.ShortTextIsOneChunk | backend/scripts/ingest_wordpress.py:70-71 | a text whose estimate is within the maximum comes back as the single chunk `[text]`, unstripped; `""` gives `[""]` |
| Chunker.SplitPathIsGreedyPacking | backend/scripts/ingest_wordpress.py:74-109 | over the maximum, chunk k is the `"\n\n"`-join of group k of a greedy packing of the visited pieces, which are read back in order |
| Chunker.GroupsAreGreedy | backend/scripts/ingest_wordpress.py:86-109 | the groups cover the pieces in order and are non-empty; a group of two or more pieces has an estimate sum within the target; a group is closed only when the next piece would push it over; the last group is flushed |
| Chunker.GreedyIsUnique | backend/scripts/ingest_wordpress.py:86-109 | any grouping with those greedy properties is the one the loop builds |
| Chunker.OverTargetSplits | backend/scripts/ingest_wordpress.py:86-105 | two or more pieces whose estimates sum over the target never end up in a single group |
| Chunker.NoChunksIffBlank | backend/scripts/ingest_wordpress.py:74-109 | `chunk_text` returns no chunk exactly when the text is over the maximum and whitespace-only: blank paragraphs are skipped and never close a chunk |
| Chunker.ChunksSplitBackIntoParagraphs | backend/scripts/ingest_wordpress.py:74-109 | when no stripped paragraph is over the maximum, splitting the chunks back on `"\n\n"` gives exactly the stripped non-blank paragraphs, in order |
| Chunker.OversizedParagraph | backend/scripts/ingest_dayone.py:69-77 | a stripped paragraph over the maximum is replaced by its `". "`-fragments, in order (an unfolding of the oversized branch of `ParagraphPieces`, kept as documentation) |
| Chunker.OversizedParagraphSplits | backend/scripts/ingest_dayone.py:68-99 | a single paragraph over the maximum whose fragments sum over the target yields at least two chunks |
| Chunker.EmptyChunkFromEmptyFragment | backend/scripts/ingest_wordpress.py:86-96 | an oversized paragraph `a + ". . " + a` is chunked as `[a, "", a]`: an empty fragment becomes an empty chunk |
| PyText.SplitJoin | backend/scripts/ingest_wordpress.py:74 | joining the pieces of `split(sep)` with `sep` gives the text back |
| PyText.SplitUnique | backend/scripts/ingest_wordpress.py:74 | `split(sep)` is the only piece list that joins back to the text with every cut at the leftmost separator and no separator in the last piece |
| PyText.JoinSplitRoundTrip | backend/scripts/ingest_wordpress.py:74 | splitting a join gives the parts back when the parts are leftmost cuts |
| PyText.StripBlank | backend/scripts/ingest_wordpress.py:79-81 | `strip()` is empty exactly when the text is whitespace-only |
| PyText.StripEnds | backend/scripts/ingest_wordpress.py:79 | a non-empty `strip()` result neither starts nor ends with whitespace |
| PyText.StripRemovesOnlyEndSpace | backend/scripts/ingest_wordpress.py:79 | `strip()` is the slice `s[i..j]` of the text with only whitespace before `i` and after `j`; with `StripEnds`, exactly the leading and trailing whitespace runs are removed |
| PyText.DecimalRoundTrip | backend/scripts/ingest_dayone.py:142 | the decimal rendering of a chunk index reads back as that index |
| PyText.NatToStringInjective | backend/scripts/ingest_dayone.py:142 | distinct chunk indices render differently |
| IngestRecords.ChunkIdInjective | backend/scripts/ingest_dayone.py:142 | `<owner>_chunk_<i>` equals `<owner>_chunk_<j>` exactly when `i == j` |
| IngestRecords.CommaListRoundTrip | backend/scripts/ingest_dayone.py:151 | a non-empty list of comma-free names is recovered by splitting its comma-join |
| DayOne.PhotoIdentifiers | backend/scripts/ingest_dayone.py:119 | one identifier per photo, in order, `""` when a photo has none |
| DayOne.ParseEntry | backend/scripts/ingest_dayone.py:114-120 | a missing `uuid`, `creationDate` or `text` becomes `""`, missing `tags` or `photos` become `[]` |
| DayOne.ParseRender | backend/scripts/ingest_dayone.py:114-120 | parsing the export form of an entry gives the entry back: no field is lost or altered |
| DayOne.ProcessEntrySpec | backend/scripts/ingest_dayone.py:141-160 | record i holds chunk i under `<uuid>_chunk_<i>`, with chunk index i, the chunk count, the entry index, date, comma-joined tags, photo count, and `has_photos` exactly when the count is positive |
| DayOne.BuildRecords | backend/scripts/ingest_dayone.py:141-160 | the loop appends one record per chunk, record k for chunk k |
| DayOne.ProcessEntry | backend/scripts/ingest_dayone.py:123-162 | the method returns exactly the records `ProcessEntrySpec` describes, including `[]` for an empty or whitespace-only text |
| DayOne.NoRecordsIffBlank | backend/scripts/ingest_dayone.py:134-138 | an entry yields no record exactly when its text is empty or whitespace-only |
| DayOne.RecordIdsDistinct | backend/scripts/ingest_dayone.py:142 | the records of one entry have pairwise distinct ids |
| DayOne.ShortEntryOneRecord | backend/scripts/ingest_dayone.py:134-160 | a non-blank entry within the maximum becomes one record `<uuid>_chunk_0` holding the whole text |
| DayOne.TagsReadBack | backend/scripts/ingest_dayone.py:151 | splitting a record's `tags` on commas gives the entry's tags back when no tag holds a comma |
| WordPress.CollectCategories | backend/scripts/ingest_wordpress.py:202-212 | the loop collects the display names of the `category` and the `post_tag` elements separately, in document order |
| WordPress.DomainNamesMembers | backend/scripts/ingest_wordpress.py:202-212 | a name is listed under a domain exactly when some category element of that domain has it as display name (text, else nicename) |
| WordPress.DomainNamesConcat | backend/scripts/ingest_wordpress.py:202-212 | collection distributes over concatenation of the category elements: document order is kept |
| WordPress.DomainNamesAreDomainElements | backend/scripts/ingest_wordpress.py:202-212 | the names listed under a domain are the display names of exactly the elements of that domain, one per element, in document order |
| WordPress.DomainNamesDisjointCount | backend/scripts/ingest_wordpress.py:202-212 | the category names, the tag names and the elements of any other domain add up to the number of elements: each element is listed once under its own domain, and an element of another domain under neither |
| WordPress.ParseItem | backend/scripts/ingest_wordpress.py:158-222 | the method returns the post `ParseItemSpec` reads from the item |
| WordPress.ParsedIffPublishedPost | backend/scripts/ingest_wordpress.py:169-180 | an item is read exactly when its post type is `post` and its status is `publish` (an unfolding of the first two tests of `ParseItemSpec`, kept as documentation) |
| WordPress.DateFallback | backend/scripts/ingest_wordpress.py:190-196 | the date is the non-empty `wp:post_date`, else the `pubDate` text, else `""` |
| WordPress.ProcessPostSpec | backend/scripts/ingest_wordpress.py:250-271 | record i holds chunk i under `wp_<post_id>_chunk_<i>`, with chunk index i, the chunk count, the post index, title, date and comma-joined categories and tags |
| WordPress.BuildRecords | backend/scripts/ingest_wordpress.py:252-271 | the loop appends one record per chunk, record k for chunk k |
| WordPress.ProcessPost | backend/scripts/ingest_wordpress.py:225-273 | the method returns exactly the records `ProcessPostSpec` describes |
| WordPress.NoRecordsIffBlankContent | backend/scripts/ingest_wordpress.py:237-249 | a post yields no record exactly when its converted content is empty or whitespace-only, whatever its title |
| WordPress.RecordIdsDistinct | backend/scripts/ingest_wordpress.py:253 | the records of one post have pairwise distinct ids |
| WordPress.ShortPostOneRecord | backend/scripts/ingest_wordpress.py:243-249 | a short titled post becomes one record holding title, `"\n\n"` and content |
| WordPress.CategoriesReadBack | backend/scripts/ingest_wordpress.py:263 | splitting a record's `categories` on commas gives the post's categories back when no name holds a comma |
| WordPress.CleanKeepsExactlyXmlChars | backend/scripts/ingest_wordpress.py:288-299 | a character is in the cleaned text exactly when it is in the input and is an XML 1.0 `Char` |
| WordPress.CleanIsXml | backend/scripts/ingest_wordpress.py:288-299 | every character of the cleaned text is an XML 1.0 `Char` |
| WordPress.CleanValidIsIdentity | backend/scripts/ingest_wordpress.py:299 | already-valid text is left unchanged |
| WordPress.CleanIdempotent | backend/scripts/ingest_wordpress.py:299 | cleaning twice is cleaning once |
| WordPress.CleanConcat | backend/scripts/ingest_wordpress.py:299 | cleaning works character by character: it distributes over concatenation, so order is kept |
| Retrieval.IsWisdom | backend/app/services/retrieval.py:27-35 | a wisdom chunk is never personal |
| Retrieval.EffectiveTopK | backend/app/services/retrieval.py:78 | the service default is used when `top_k` is `None` or 0, the argument otherwise |
| Retrieval.WhereFilter | backend/app/services/retrieval.py:87-89 | a filter exists exactly for a non-empty `source_filter`, and holds its lower-cased value |
| Retrieval.BuildChunks | backend/app/services/retrieval.py:102-115 | one chunk per returned id, in store order, with its document, metadata and distance, relevance `1 - distance`, and source type defaulting to `unknown` |
| Retrieval.Retrieve | backend/app/services/retrieval.py:61-130 | the search runs with the effective `top_k` and filter; the personal and wisdom lists are the order-preserving filters of the chunks; the context is their formatting |
| Retrieval.PartitionMembers | backend/app/services/retrieval.py:118-119 | a chunk is listed as personal exactly when it is a `dayone`/`wordpress` chunk of the result, as wisdom exactly when it is a `wisdom` chunk; never both |
| Retrieval.PartitionCounts | backend/app/services/retrieval.py:118-119 | the personal list, the wisdom list and the chunks of other source types together are the chunks as a multiset: nothing is invented, duplicated or lost from its kind |
| Retrieval.SectionLinesShape | backend/app/services/retrieval.py:164-186 | a section is its title line, then per chunk, numbered from 1, a banner line, the stripped text and an empty line |
| Retrieval.SectionShowsEveryText | backend/app/services/retrieval.py:182-186 | every chunk's stripped text appears in its section |
| Retrieval.SectionStartsWithTitle | backend/app/services/retrieval.py:166 | a section starts with its title |
| Retrieval.FormatPersonalChunks | backend/app/services/retrieval.py:164-186 | the loop returns the personal section: `Entry i` banners with `[Journal Entry - date]`, `[Blog Post: "title" - date]` or the title-cased source type, defaults `Unknown date`/`Untitled` |
| Retrieval.FormatWisdomChunks | backend/app/services/retrieval.py:188-205 | the loop returns the wisdom section: `Wisdom i` banners with `[tradition: source]`, or `[source]` without tradition, default `Unknown source` |
| Retrieval.PersonalChunksNeverGeneric | backend/app/services/retrieval.py:173-180 | fed only personal chunks, as `retrieve` does, the formatter never takes its generic header branch |
| Retrieval.FormatContext | backend/app/services/retrieval.py:132-162 | the method returns the sections joined by `"\n\n"`, or the sentinel |
| Retrieval.ContextSentinelIffEmpty | backend/app/services/retrieval.py:147-162 | the context is `[No relevant context found]` exactly when both lists are empty, and it is never `""` |
| Retrieval.ContextOrder | backend/app/services/retrieval.py:147-162 | with both kinds present, the personal section comes first, then `"\n\n"`, then the wisdom section |
| SystemPrompt.Format | backend/app/prompts/system_prompt.py:90 | substitution fails exactly when the template names a field that is not supplied |
| SystemPrompt.FormatTemplate | backend/app/prompts/system_prompt.py:6-67 | formatting the template with `context_section` gives the persona followed by the value, inserted without re-expansion |
| SystemPrompt.OneFieldAtEnd | backend/app/prompts/system_prompt.py:6-67 | the modelled template, persona text followed by a field, has exactly one field, `context_section`, at its very end; this unfolds `Template`, and that the persona literal holds no brace is not proved |
| SystemPrompt.PromptFor | backend/app/prompts/system_prompt.py:70-90 | the persona is a prefix of the prompt; empty context gives the persona alone; otherwise persona, `"\n## Retrieved Context\n\n"`, the fixed sentence, `"\n\n"` and the context |
| SystemPrompt.PromptEndsWithContext | backend/app/prompts/system_prompt.py:80-90 | the prompt ends with the context verbatim |
| Schemas.NewChatRequest | backend/app/models/schemas.py:15-21 | a request keeps its message, and the history defaults to `[]` |
| Schemas.FirstMessageValid | backend/app/models/schemas.py:15-21 | a request with the default history is valid exactly when its message is non-empty |
| Schemas.NewSourceChunk | backend/app/models/schemas.py:24-31 | a source keeps its fields; `date` and `title` default to `None` |
| Chat.BuildMessages | backend/app/routers/chat.py:93-122 | `len(history) + 1` messages: the history's role/content pairs in order, then the current message as `user` |
| Chat.MessagesFromValidRequestAreValid | backend/app/routers/chat.py:107-120 | every message built from a valid request has a valid role and non-empty content |
| Chat.Truncate | backend/app/routers/chat.py:140 | text of at most 500 characters is unchanged; longer text becomes its first 500 characters and `"..."`; never over 503 |
| Chat.TruncateIdempotent | backend/app/routers/chat.py:140 | truncating a truncated text changes nothing |
| Chat.Lookup | backend/app/routers/chat.py:142-143 | `metadata.get(key)` is `None` exactly when the key is absent, its value otherwise |
| Chat.FormatSources | backend/app/routers/chat.py:125-148 | one source per chunk, in order, each `SourceOf` its chunk |
| Chat.SourceKeepsChunk | backend/app/routers/chat.py:137-146 | a source copies id, source type and relevance; its text is at most 503 characters and is the chunk text when that is short; date/title are present exactly when the metadata has them |
| Chat.ErrorResponse | backend/app/routers/chat.py:72-90 | an LLM error gives 503 with the `Failed to get response from AI service: ` prefix; a value error gives 500 with its message; anything else 500 with a fixed message |
| Chat.ContextSectionAlwaysPresent | backend/app/routers/chat.py:52 | on the chat path the context never is `""`, so the Retrieved Context section is always in the prompt |

## Left out

- `strip_html` (backend/scripts/ingest_wordpress.py:114-155) is BeautifulSoup/lxml DOM work; `process_post` takes it as a function parameter.
- File reading, XML parsing with recovery, logging, embedding and the store (`parse_wxr_file`, the `ingest_*_export`, `find_*_export` and `main` functions, vector_store.py, embeddings.py, llm.py) are I/O and foreign libraries; the store's search is a function parameter of `Retrieve` and its output an input.
- The async chat endpoint is orchestration over those services; only its exception-to-status mapping is modelled. A `BaseException` that is not an `Exception` is not modelled.
- The lazy service singletons are process-wide lifecycle, not logic.
- `relevance_score` and `distance` are modelled as `real`; no claim is made about floating-point rounding.
- PyText.Lower: ASCII case map only, not Python's Unicode `lower`.
- PyText.Title: ASCII case map and word boundaries only, not Python's Unicode `title`.
- PyText.Strip: strips CPython's `str.isspace` set written out as code points; it is not derived from the Unicode database.
- Text with lone surrogates (which `json.load` accepts from `\ud800`-style escapes in a Day One export) cannot be a Dafny `string`: chunking, `strip` and `split` are modelled for text without surrogates. Only `clean_xml_content` works on all code points.
- Store metadata is a map from strings to strings; the integer and boolean values the ingestion writes are typed fields of the record datatypes instead.
- Day One JSON `null` values are not modelled: a field is either absent or holds a value of its declared type.
- SystemPrompt.Format models `str.format` over templates already parsed into literal text and named fields; brace escaping and format specs are not modelled.
- SystemPrompt.GetSystemPrompt: the persona literal is not itself proved free of braces; the lemmas are stated for any persona.
- The FastAPI wiring, configuration and package re-exports carry no logic of the core.
