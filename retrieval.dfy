/** Retrieval assembly and context formatting
    (backend/app/services/retrieval.py): the store's parallel result lists
    become chunks, the chunks are partitioned into personal and wisdom
    sources, and each group is rendered as a numbered section of the prompt
    context. */
module Retrieval {
  import opened Wrappers
  import opened Seqs
  import opened PyText

  const SourceDayOne := "dayone"
  const SourceWordPress := "wordpress"
  const SourceWisdom := "wisdom"
  const SourceUnknown := "unknown"

  /** A chunk's store metadata, the string-valued keys the formatters read. */
  type Metadata = map<string, string>

  /** `metadata.get(key, default)`. */
  function Get(m: Metadata, key: string, default: string): string {
    if key in m then m[key] else default
  }

  /** `RetrievedChunk`; `distance` and `relevanceScore` are reals. */
  datatype RetrievedChunk = RetrievedChunk(
    id: string,
    text: string,
    metadata: Metadata,
    distance: real,
    relevanceScore: real,
    sourceType: string)

  /** `is_personal`: a journal entry or a blog post. */
  predicate IsPersonal(c: RetrievedChunk) {
    c.sourceType == SourceDayOne || c.sourceType == SourceWordPress
  }

  /** `is_wisdom`: a contemplative text; never also personal. */
  function IsWisdom(c: RetrievedChunk): (b: bool)
    ensures b ==> !IsPersonal(c)
  {
    c.sourceType == SourceWisdom
  }

  // ---------------------------------------------------------------------
  // retrieve

  /** What `retrieve` passes to the store's `search`: the query (embedded by
      the store side of this model), the number of results and the optional
      `{"source_type": ...}` filter. */
  datatype SearchParams = SearchParams(query: string, nResults: int, sourceType: Option<string>)

  /** The store's answer: parallel lists, one position per hit. */
  datatype SearchResults = SearchResults(
    ids: seq<string>,
    documents: seq<string>,
    metadatas: seq<Metadata>,
    distances: seq<real>)

  /** Every list has an entry for every returned id. */
  predicate Parallel(r: SearchResults) {
    |r.documents| >= |r.ids| && |r.metadatas| >= |r.ids| && |r.distances| >= |r.ids|
  }

  /** `top_k or self.top_k`: the argument unless it is `None` or `0`. */
  function EffectiveTopK(topK: Option<int>, defaultTopK: int): (n: int)
    ensures n == defaultTopK <== topK.None? || topK == Some(0)
    ensures topK.Some? && topK.value != 0 ==> n == topK.value
  {
    if topK.Some? && topK.value != 0 then topK.value else defaultTopK
  }

  /** The `where` filter: the lower-cased source filter, only when one is
      given and non-empty. */
  function WhereFilter(sourceFilter: Option<string>): (w: Option<string>)
    ensures w.Some? <==> sourceFilter.Some? && sourceFilter.value != ""
    ensures w.Some? ==> w.value == Lower(sourceFilter.value)
  {
    if sourceFilter.Some? && sourceFilter.value != "" then Some(Lower(sourceFilter.value)) else None
  }

  function Params(query: string, topK: Option<int>, sourceFilter: Option<string>, defaultTopK: int): SearchParams {
    SearchParams(query, EffectiveTopK(topK, defaultTopK), WhereFilter(sourceFilter))
  }

  /** The chunk built from position `k` of the results. */
  function ChunkAt(r: SearchResults, k: nat): RetrievedChunk
    requires Parallel(r) && k < |r.ids|
  {
    RetrievedChunk(r.ids[k], r.documents[k], r.metadatas[k], r.distances[k],
                   1.0 - r.distances[k], Get(r.metadatas[k], "source_type", SourceUnknown))
  }

  /** The `for idx in range(len(results["ids"]))` loop: one chunk per
      returned id, in store order. */
  method BuildChunks(r: SearchResults) returns (chunks: seq<RetrievedChunk>)
    requires Parallel(r)
    ensures |chunks| == |r.ids|
    ensures forall k | 0 <= k < |r.ids| ::
      && chunks[k].id == r.ids[k]
      && chunks[k].text == r.documents[k]
      && chunks[k].metadata == r.metadatas[k]
      && chunks[k].distance == r.distances[k]
      && chunks[k].relevanceScore == 1.0 - r.distances[k]
      && chunks[k].sourceType == Get(r.metadatas[k], "source_type", SourceUnknown)
  {
    chunks := [];
    for idx := 0 to |r.ids|
      invariant |chunks| == idx
      invariant forall k | 0 <= k < idx :: chunks[k] == ChunkAt(r, k)
    {
      chunks := chunks + [ChunkAt(r, idx)];
    }
  }

  /** `RetrievalResult`. */
  datatype RetrievalResult = RetrievalResult(
    query: string,
    chunks: seq<RetrievedChunk>,
    formattedContext: string,
    personalChunks: seq<RetrievedChunk>,
    wisdomChunks: seq<RetrievedChunk>)

  /** `RetrievalService.retrieve`, with the embedding model and the vector
      store behind `search`. */
  method Retrieve(query: string, topK: Option<int>, sourceFilter: Option<string>,
                  defaultTopK: int, search: SearchParams -> SearchResults)
    returns (result: RetrievalResult)
    requires Parallel(search(Params(query, topK, sourceFilter, defaultTopK)))
    ensures result.query == query
    ensures |result.chunks| == |search(Params(query, topK, sourceFilter, defaultTopK)).ids|
    ensures forall k | 0 <= k < |result.chunks| ::
      result.chunks[k] == ChunkAt(search(Params(query, topK, sourceFilter, defaultTopK)), k)
    ensures result.personalChunks == Filter(result.chunks, IsPersonal)
    ensures result.wisdomChunks == Filter(result.chunks, IsWisdom)
    ensures result.formattedContext == FormatContextSpec(result.personalChunks, result.wisdomChunks)
  {
    var n := EffectiveTopK(topK, defaultTopK);
    var whereFilter := WhereFilter(sourceFilter);
    var results := search(SearchParams(query, n, whereFilter));
    var chunks := BuildChunks(results);
    var personal := Filter(chunks, IsPersonal);
    var wisdom := Filter(chunks, IsWisdom);
    var context := FormatContext(personal, wisdom);
    result := RetrievalResult(query, chunks, context, personal, wisdom);
  }

  /** The personal list holds exactly the personal chunks, the wisdom list
      exactly the wisdom chunks; none is in both, and a chunk of any other
      source type is in neither. */
  lemma PartitionMembers(chunks: seq<RetrievedChunk>, c: RetrievedChunk)
    ensures c in Filter(chunks, IsPersonal) <==> c in chunks && IsPersonal(c)
    ensures c in Filter(chunks, IsWisdom) <==> c in chunks && c.sourceType == SourceWisdom
    ensures !(c in Filter(chunks, IsPersonal) && c in Filter(chunks, IsWisdom))
  {
    FilterMembers(chunks, IsPersonal, c);
    FilterMembers(chunks, IsWisdom, c);
  }

  /** A chunk of a source type that is neither personal nor wisdom. */
  predicate IsOtherSource(c: RetrievedChunk) {
    !IsPersonal(c) && !IsWisdom(c)
  }

  /** The personal list, the wisdom list and the chunks of other source
      types split the chunks exactly: the partition neither invents, drops
      from its kind, nor duplicates a chunk. */
  lemma {:induction false} PartitionCounts(chunks: seq<RetrievedChunk>)
    ensures multiset(Filter(chunks, IsPersonal)) + multiset(Filter(chunks, IsWisdom))
            + multiset(Filter(chunks, IsOtherSource)) == multiset(chunks)
    ensures multiset(Filter(chunks, IsPersonal)) + multiset(Filter(chunks, IsWisdom)) <= multiset(chunks)
    decreases |chunks|
  {
    if chunks != [] {
      var init := chunks[..|chunks| - 1];
      var x := chunks[|chunks| - 1];
      PartitionCounts(init);
      assert chunks == init + [x];
      assert multiset(chunks) == multiset(init) + multiset{x};
    }
  }

  // ---------------------------------------------------------------------
  // _format_personal_chunks and _format_wisdom_chunks

  const PersonalTitle := "=== FROM THE USER'S PERSONAL HISTORY ===\n"
  const WisdomTitle := "=== FROM CONTEMPLATIVE TRADITIONS ===\n"
  const NoContext := "[No relevant context found]"
  const SectionBreak := "\n\n"

  /** One numbered entry of a section: its bracketed header and its text. */
  datatype Entry = Entry(header: string, text: string)

  /** The three lines of entry `i` (numbered from 1): the banner, the
      stripped text, and an empty line. */
  function EntryLines(kind: string, i: nat, e: Entry): seq<string> {
    [Banner(kind, i, e.header), Strip(e.text), ""]
  }

  /** `f"--- {kind} {i} {header} ---"`. */
  function Banner(kind: string, i: nat, header: string): string {
    "--- " + kind + " " + NatToString(i) + " " + header + " ---"
  }

  /** The `lines` list of a section: the title, then each entry's lines. */
  function SectionLines(title: string, kind: string, es: seq<Entry>): seq<string>
    decreases |es|
  {
    if es == [] then [title]
    else SectionLines(title, kind, es[..|es| - 1]) + EntryLines(kind, |es|, es[|es| - 1])
  }

  lemma SectionLinesSnoc(title: string, kind: string, es: seq<Entry>, e: Entry)
    ensures SectionLines(title, kind, es + [e]) == SectionLines(title, kind, es) + EntryLines(kind, |es| + 1, e)
  {
    var es' := es + [e];
    assert es'[..|es'| - 1] == es;
    assert es'[|es'| - 1] == e;
    assert SectionLines(title, kind, es')
        == SectionLines(title, kind, es'[..|es'| - 1]) + EntryLines(kind, |es'|, es'[|es'| - 1]);
  }

  /** The shape of a section: the title, then three lines per entry, in
      order, numbered from 1. */
  lemma {:induction false} SectionLinesShape(title: string, kind: string, es: seq<Entry>)
    ensures |SectionLines(title, kind, es)| == 1 + 3 * |es|
    ensures SectionLines(title, kind, es)[0] == title
    ensures forall k | 0 <= k < |es| ::
      && SectionLines(title, kind, es)[1 + 3 * k] == Banner(kind, k + 1, es[k].header)
      && SectionLines(title, kind, es)[2 + 3 * k] == Strip(es[k].text)
      && SectionLines(title, kind, es)[3 + 3 * k] == ""
    decreases |es|
  {
    if es != [] {
      var init := es[..|es| - 1];
      var last := es[|es| - 1];
      SectionLinesShape(title, kind, init);
      var before := SectionLines(title, kind, init);
      var lines := SectionLines(title, kind, es);
      var added := EntryLines(kind, |es|, last);
      assert lines == before + added;
      forall k | 0 <= k < |es|
        ensures lines[1 + 3 * k] == Banner(kind, k + 1, es[k].header)
        ensures lines[2 + 3 * k] == Strip(es[k].text)
        ensures lines[3 + 3 * k] == ""
      {
        if k < |init| {
          assert init[k] == es[k];
          assert lines[1 + 3 * k] == before[1 + 3 * k];
          assert lines[2 + 3 * k] == before[2 + 3 * k];
          assert lines[3 + 3 * k] == before[3 + 3 * k];
        } else {
          var n := |before|;
          assert 1 + 3 * k == n;
          assert k + 1 == |es| && es[k] == last;
          assert lines[n] == added[0] && lines[n + 1] == added[1] && lines[n + 2] == added[2];
        }
      }
    }
  }

  /** Every entry's stripped text appears in the rendered section. */
  lemma SectionShowsEveryText(title: string, kind: string, es: seq<Entry>, k: nat)
    requires k < |es|
    ensures Contains(Join("\n", SectionLines(title, kind, es)), Strip(es[k].text))
  {
    SectionLinesShape(title, kind, es);
    var lines := SectionLines(title, kind, es);
    JoinContainsPart("\n", lines, 2 + 3 * k);
  }

  /** A rendered section starts with its title. */
  lemma SectionStartsWithTitle(title: string, kind: string, es: seq<Entry>)
    ensures title <= Join("\n", SectionLines(title, kind, es))
  {
    SectionLinesShape(title, kind, es);
    JoinStartsWithFirst("\n", SectionLines(title, kind, es));
  }

  /** Which header `_format_personal_chunks` writes for a chunk. */
  datatype HeaderKind = Journal | BlogPost | Generic

  function PersonalHeaderKind(c: RetrievedChunk): HeaderKind {
    if c.sourceType == SourceDayOne then Journal
    else if c.sourceType == SourceWordPress then BlogPost
    else Generic
  }

  /** `[Journal Entry - date]`, `[Blog Post: "title" - date]`, or the source
      type title-cased, with `Unknown date` and `Untitled` as defaults. */
  function PersonalHeader(c: RetrievedChunk): string {
    var date := Get(c.metadata, "date", "Unknown date");
    match PersonalHeaderKind(c)
    case Journal => "[Journal Entry - " + date + "]"
    case BlogPost => "[Blog Post: \"" + Get(c.metadata, "title", "Untitled") + "\" - " + date + "]"
    case Generic => "[" + Title(c.sourceType) + " - " + date + "]"
  }

  /** Fed only personal chunks, as `retrieve` does, the formatter never takes
      its generic branch. */
  lemma PersonalChunksNeverGeneric(chunks: seq<RetrievedChunk>, k: nat)
    requires k < |Filter(chunks, IsPersonal)|
    ensures PersonalHeaderKind(Filter(chunks, IsPersonal)[k]) != Generic
  {
    FilterSatisfies(chunks, IsPersonal);
  }

  /** `[tradition: source]`, or `[source]` when there is no tradition, with
      `Unknown source` as the default source. */
  function WisdomHeader(c: RetrievedChunk): string {
    var source := Get(c.metadata, "source", "Unknown source");
    var tradition := Get(c.metadata, "tradition", "");
    if tradition != "" then "[" + tradition + ": " + source + "]" else "[" + source + "]"
  }

  function PersonalEntries(chunks: seq<RetrievedChunk>): seq<Entry> {
    seq(|chunks|, k requires 0 <= k < |chunks| => Entry(PersonalHeader(chunks[k]), chunks[k].text))
  }

  function WisdomEntries(chunks: seq<RetrievedChunk>): seq<Entry> {
    seq(|chunks|, k requires 0 <= k < |chunks| => Entry(WisdomHeader(chunks[k]), chunks[k].text))
  }

  function FormatPersonalSpec(chunks: seq<RetrievedChunk>): string {
    Join("\n", SectionLines(PersonalTitle, "Entry", PersonalEntries(chunks)))
  }

  function FormatWisdomSpec(chunks: seq<RetrievedChunk>): string {
    Join("\n", SectionLines(WisdomTitle, "Wisdom", WisdomEntries(chunks)))
  }

  lemma PersonalEntriesPrefix(chunks: seq<RetrievedChunk>, i: nat)
    requires i < |chunks|
    ensures PersonalEntries(chunks[..i + 1]) == PersonalEntries(chunks[..i]) + [Entry(PersonalHeader(chunks[i]), chunks[i].text)]
  {
  }

  lemma WisdomEntriesPrefix(chunks: seq<RetrievedChunk>, i: nat)
    requires i < |chunks|
    ensures WisdomEntries(chunks[..i + 1]) == WisdomEntries(chunks[..i]) + [Entry(WisdomHeader(chunks[i]), chunks[i].text)]
  {
  }

  /** `_format_personal_chunks`: the loop appending three lines per chunk. */
  method FormatPersonalChunks(chunks: seq<RetrievedChunk>) returns (s: string)
    ensures s == FormatPersonalSpec(chunks)
  {
    var lines := [PersonalTitle];
    for i := 0 to |chunks|
      invariant lines == SectionLines(PersonalTitle, "Entry", PersonalEntries(chunks[..i]))
    {
      var entry := Entry(PersonalHeader(chunks[i]), chunks[i].text);
      PersonalEntriesPrefix(chunks, i);
      SectionLinesSnoc(PersonalTitle, "Entry", PersonalEntries(chunks[..i]), entry);
      lines := lines + EntryLines("Entry", i + 1, entry);
    }
    assert chunks[..|chunks|] == chunks;
    s := Join("\n", lines);
  }

  /** `_format_wisdom_chunks`: the loop appending three lines per chunk. */
  method FormatWisdomChunks(chunks: seq<RetrievedChunk>) returns (s: string)
    ensures s == FormatWisdomSpec(chunks)
  {
    var lines := [WisdomTitle];
    for i := 0 to |chunks|
      invariant lines == SectionLines(WisdomTitle, "Wisdom", WisdomEntries(chunks[..i]))
    {
      var entry := Entry(WisdomHeader(chunks[i]), chunks[i].text);
      WisdomEntriesPrefix(chunks, i);
      SectionLinesSnoc(WisdomTitle, "Wisdom", WisdomEntries(chunks[..i]), entry);
      lines := lines + EntryLines("Wisdom", i + 1, entry);
    }
    assert chunks[..|chunks|] == chunks;
    s := Join("\n", lines);
  }

  // ---------------------------------------------------------------------
  // _format_context

  /** `_format_context`: the personal section, then the wisdom section,
      joined by a paragraph break; the sentinel when there is neither. */
  function FormatContextSpec(personal: seq<RetrievedChunk>, wisdom: seq<RetrievedChunk>): string {
    var sections := (if personal != [] then [FormatPersonalSpec(personal)] else [])
                  + (if wisdom != [] then [FormatWisdomSpec(wisdom)] else []);
    if sections == [] then NoContext else Join(SectionBreak, sections)
  }

  method FormatContext(personal: seq<RetrievedChunk>, wisdom: seq<RetrievedChunk>) returns (s: string)
    ensures s == FormatContextSpec(personal, wisdom)
  {
    var sections: seq<string> := [];
    if personal != [] {
      var section := FormatPersonalChunks(personal);
      sections := sections + [section];
    }
    if wisdom != [] {
      var section := FormatWisdomChunks(wisdom);
      sections := sections + [section];
    }
    if sections == [] {
      return NoContext;
    }
    s := Join(SectionBreak, sections);
  }

  /** The context is the sentinel exactly when both lists are empty, and it
      is never the empty string. */
  lemma ContextSentinelIffEmpty(personal: seq<RetrievedChunk>, wisdom: seq<RetrievedChunk>)
    ensures FormatContextSpec(personal, wisdom) == NoContext <==> personal == [] && wisdom == []
    ensures FormatContextSpec(personal, wisdom) != ""
  {
    var s := FormatContextSpec(personal, wisdom);
    if personal != [] {
      var p := FormatPersonalSpec(personal);
      SectionStartsWithTitle(PersonalTitle, "Entry", PersonalEntries(personal));
      var sections := [p] + (if wisdom != [] then [FormatWisdomSpec(wisdom)] else []);
      JoinStartsWithFirst(SectionBreak, sections);
      assert s[0] == PersonalTitle[0];
    } else if wisdom != [] {
      SectionStartsWithTitle(WisdomTitle, "Wisdom", WisdomEntries(wisdom));
      assert s[0] == WisdomTitle[0];
    }
  }

  /** With both kinds present, the personal section comes first and the two
      are separated by a paragraph break. */
  lemma ContextOrder(personal: seq<RetrievedChunk>, wisdom: seq<RetrievedChunk>)
    requires personal != [] && wisdom != []
    ensures FormatContextSpec(personal, wisdom)
         == FormatPersonalSpec(personal) + SectionBreak + FormatWisdomSpec(wisdom)
  {
    var sections := [FormatPersonalSpec(personal), FormatWisdomSpec(wisdom)];
    assert sections[1..] == [FormatWisdomSpec(wisdom)];
    assert Join(SectionBreak, sections) == sections[0] + SectionBreak + Join(SectionBreak, sections[1..]);
  }
}
