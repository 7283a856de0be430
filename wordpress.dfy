/** The WordPress ingestion (backend/scripts/ingest_wordpress.py):
    `parse_wordpress_item` reads a published post out of an export item,
    `process_post` turns it into one store record per chunk, and
    `clean_xml_content` drops the characters XML 1.0 does not allow. */
module WordPress {
  import opened Wrappers
  import opened Seqs
  import opened PyText
  import opened Chunker
  import opened IngestRecords

  // ---------------------------------------------------------------------
  // parse_wordpress_item

  /** A child element of the item; its `text` is `None` when it is empty. */
  datatype Element = Element(text: Option<string>)

  /** A `<category>` element: its `domain` and `nicename` attributes (`None`
      when absent) and its text. */
  datatype Category = Category(domain: Option<string>, nicename: Option<string>, text: Option<string>)

  /** The parts of an export `<item>` the parser looks up; `None` is a missing
      child element. */
  datatype Item = Item(
    postType: Option<Element>,
    status: Option<Element>,
    postId: Option<Element>,
    title: Option<Element>,
    postDate: Option<Element>,
    pubDate: Option<Element>,
    content: Option<Element>,
    categories: seq<Category>)

  /** The parsed post.  `postId` and `date` are `None` where the Python value
      is `None`: an element that is present but empty. */
  datatype PostData = PostData(
    postId: Option<string>,
    title: string,
    date: Option<string>,
    rawContent: string,
    categories: seq<string>,
    tags: seq<string>,
    status: string)

  const PostTypePost := "post"
  const StatusPublish := "publish"
  const DomainCategory := "category"
  const DomainTag := "post_tag"

  /** `elem.text if elem is not None else None`. */
  function TextOf(e: Option<Element>): Option<string> {
    if e.Some? then e.value.text else None
  }

  /** `elem.text if elem is not None and elem.text else ""`. */
  function NonEmptyTextOf(e: Option<Element>): string {
    if e.Some? && e.value.text.Some? then e.value.text.value else ""
  }

  /** `category.text or category.get('nicename', '')`. */
  function DisplayName(c: Category): string {
    if c.text.Some? && c.text.value != "" then c.text.value else c.nicename.GetOr("")
  }

  /** The display names of the categories in `domain`, in document order. */
  function DomainNames(cs: seq<Category>, domain: string): seq<string>
    decreases |cs|
  {
    if cs == [] then []
    else
      var init := DomainNames(cs[..|cs| - 1], domain);
      if cs[|cs| - 1].domain.GetOr("") == domain then init + [DisplayName(cs[|cs| - 1])] else init
  }

  /** `wp:post_date` when it has text, otherwise the `pubDate` text, or `""`
      when there is no `pubDate`. */
  function PostDate(item: Item): Option<string> {
    if NonEmptyTextOf(item.postDate) != "" then Some(NonEmptyTextOf(item.postDate))
    else if item.pubDate.Some? then item.pubDate.value.text
    else Some("")
  }

  /** `parse_wordpress_item(item)`. */
  function ParseItemSpec(item: Item): Option<PostData> {
    if TextOf(item.postType) != Some(PostTypePost) then None
    else if TextOf(item.status) != Some(StatusPublish) then None
    else Some(PostData(
      if item.postId.Some? then item.postId.value.text else Some(""),
      NonEmptyTextOf(item.title),
      PostDate(item),
      NonEmptyTextOf(item.content),
      DomainNames(item.categories, DomainCategory),
      DomainNames(item.categories, DomainTag),
      StatusPublish))
  }

  /** The `for category in item.findall('category')` loop. */
  method CollectCategories(cs: seq<Category>) returns (categories: seq<string>, tags: seq<string>)
    ensures categories == DomainNames(cs, DomainCategory)
    ensures tags == DomainNames(cs, DomainTag)
  {
    categories, tags := [], [];
    for i := 0 to |cs|
      invariant categories == DomainNames(cs[..i], DomainCategory)
      invariant tags == DomainNames(cs[..i], DomainTag)
    {
      assert cs[..i + 1][..i] == cs[..i];
      var domain := cs[i].domain.GetOr("");
      var name := DisplayName(cs[i]);
      if domain == DomainCategory {
        categories := categories + [name];
      } else if domain == DomainTag {
        tags := tags + [name];
      }
    }
    assert cs[..|cs|] == cs;
  }

  method ParseItem(item: Item) returns (post: Option<PostData>)
    ensures post == ParseItemSpec(item)
  {
    var postType := TextOf(item.postType);
    if postType != Some(PostTypePost) {
      return None;
    }
    var status := TextOf(item.status);
    if status != Some(StatusPublish) {
      return None;
    }
    var postId := if item.postId.Some? then item.postId.value.text else Some("");
    var title := NonEmptyTextOf(item.title);
    var date: Option<string>;
    if item.postDate.Some? && item.postDate.value.text.Some? && item.postDate.value.text.value != "" {
      date := item.postDate.value.text;
    } else {
      date := if item.pubDate.Some? then item.pubDate.value.text else Some("");
    }
    var content := NonEmptyTextOf(item.content);
    var categories, tags := CollectCategories(item.categories);
    post := Some(PostData(postId, title, date, content, categories, tags, status.value));
  }

  /** Only a published post is read; a page, an attachment or a draft
      gives `None`. */
  lemma ParsedIffPublishedPost(item: Item)
    ensures ParseItemSpec(item).Some?
        <==> TextOf(item.postType) == Some(PostTypePost) && TextOf(item.status) == Some(StatusPublish)
  {
  }

  /** The date falls back from `wp:post_date` to `pubDate` to `""`. */
  lemma DateFallback(item: Item)
    requires ParseItemSpec(item).Some?
    ensures item.postDate.Some? && item.postDate.value.text.Some? && item.postDate.value.text.value != ""
            ==> ParseItemSpec(item).value.date == item.postDate.value.text
    ensures NonEmptyTextOf(item.postDate) == "" && item.pubDate.Some?
            ==> ParseItemSpec(item).value.date == item.pubDate.value.text
    ensures NonEmptyTextOf(item.postDate) == "" && item.pubDate.None?
            ==> ParseItemSpec(item).value.date == Some("")
  {
  }

  /** A name is listed under a domain exactly when some category element of
      that domain carries it. */
  lemma {:induction false} DomainNamesMembers(cs: seq<Category>, domain: string, x: string)
    ensures x in DomainNames(cs, domain)
        <==> exists k | 0 <= k < |cs| :: cs[k].domain.GetOr("") == domain && DisplayName(cs[k]) == x
    decreases |cs|
  {
    if cs != [] {
      var init := cs[..|cs| - 1];
      DomainNamesMembers(init, domain, x);
      assert forall k | 0 <= k < |init| :: init[k] == cs[k];
    }
  }

  /** The names of one export read in two parts are the names of the parts,
      in order. */
  lemma {:induction false} DomainNamesConcat(a: seq<Category>, b: seq<Category>, domain: string)
    ensures DomainNames(a + b, domain) == DomainNames(a, domain) + DomainNames(b, domain)
    decreases |b|
  {
    if b == [] {
      assert a + b == a;
    } else {
      var b' := b[..|b| - 1];
      assert (a + b)[..|a + b| - 1] == a + b';
      DomainNamesConcat(a, b', domain);
    }
  }

  /** Whether a category element belongs to `domain`. */
  function InDomain(domain: string): Category -> bool {
    (c: Category) => c.domain.GetOr("") == domain
  }

  /** An element that is neither a category nor a tag. */
  predicate IsOtherDomain(c: Category) {
    c.domain.GetOr("") != DomainCategory && c.domain.GetOr("") != DomainTag
  }

  /** The names listed under `domain` are the display names of exactly the
      elements of that domain, one each, in document order. */
  lemma {:induction false} DomainNamesAreDomainElements(cs: seq<Category>, domain: string)
    ensures DomainNames(cs, domain) == Map(Filter(cs, InDomain(domain)), DisplayName)
    ensures |DomainNames(cs, domain)| == |Filter(cs, InDomain(domain))|
    decreases |cs|
  {
    if cs != [] {
      var init := cs[..|cs| - 1];
      DomainNamesAreDomainElements(init, domain);
      var f := Filter(init, InDomain(domain));
      if InDomain(domain)(cs[|cs| - 1]) {
        assert (f + [cs[|cs| - 1]])[..|f|] == f;
      }
    }
  }

  /** Every category element is counted exactly once: among the categories,
      among the tags, or among the elements of other domains, which are
      dropped. */
  lemma {:induction false} DomainNamesDisjointCount(cs: seq<Category>)
    ensures |DomainNames(cs, DomainCategory)| + |DomainNames(cs, DomainTag)|
            + |Filter(cs, IsOtherDomain)| == |cs|
    ensures |DomainNames(cs, DomainCategory)| + |DomainNames(cs, DomainTag)| <= |cs|
    decreases |cs|
  {
    if cs != [] {
      DomainNamesDisjointCount(cs[..|cs| - 1]);
    }
  }

  // ---------------------------------------------------------------------
  // process_post

  const SourceType := "wordpress"
  const IdPrefix := "wp_"

  datatype Metadata = Metadata(
    sourceType: string,
    postId: Option<string>,
    title: string,
    postIndex: int,
    chunkIndex: nat,
    totalChunks: nat,
    date: Option<string>,
    categories: string,
    tags: string)

  datatype Record = Record(id: string, text: string, metadata: Metadata)

  /** `str(x)` for the post id: `None` prints as `"None"`. */
  function PyStr(x: Option<string>): string {
    if x.Some? then x.value else "None"
  }

  /** The text that is chunked: the title, a paragraph break and the content,
      or the content alone when there is no title. */
  function FullText(title: string, cleanText: string): string {
    if title == "" then cleanText else title + ParagraphBreak + cleanText
  }

  /** The chunks `process_post` makes records of, given the HTML-to-text
      conversion it applies to the raw content. */
  function PostChunks(post: PostData, stripHtml: string -> string): seq<string> {
    var clean := stripHtml(post.rawContent);
    if IsBlank(clean) then []
    else ChunkSpec(FullText(post.title, clean), DefaultTargetTokens, DefaultMaxTokens)
  }

  function PostRecord(post: PostData, postIndex: int, chunks: seq<string>, i: nat): Record
    requires i < |chunks|
  {
    Record(ChunkId(IdPrefix + PyStr(post.postId), i), chunks[i],
           Metadata(SourceType, post.postId, post.title, postIndex, i, |chunks|, post.date,
                    CommaList(post.categories), CommaList(post.tags)))
  }

  /** The records `process_post(post, post_index)` returns: record `i` holds
      chunk `i` under id `wp_<post_id>_chunk_<i>`, with its position, the
      chunk count, the post's index, title, date and comma-joined categories
      and tags. */
  function ProcessPostSpec(post: PostData, postIndex: int, stripHtml: string -> string): (r: seq<Record>)
    ensures |r| == |PostChunks(post, stripHtml)|
    ensures forall i | 0 <= i < |r| ::
      && r[i].id == IdPrefix + PyStr(post.postId) + ChunkInfix + NatToString(i)
      && r[i].text == PostChunks(post, stripHtml)[i]
      && r[i].metadata.sourceType == SourceType
      && r[i].metadata.postId == post.postId
      && r[i].metadata.title == post.title
      && r[i].metadata.postIndex == postIndex
      && r[i].metadata.chunkIndex == i
      && r[i].metadata.totalChunks == |r|
      && r[i].metadata.date == post.date
      && r[i].metadata.categories == CommaList(post.categories)
      && r[i].metadata.tags == CommaList(post.tags)
  {
    var chunks := PostChunks(post, stripHtml);
    var r := seq(|chunks|, i requires 0 <= i < |chunks| => PostRecord(post, postIndex, chunks, i));
    assert forall i | 0 <= i < |r| :: r[i] == PostRecord(post, postIndex, chunks, i);
    r
  }

  /** `process_post`. */
  method ProcessPost(post: PostData, postIndex: int, stripHtml: string -> string) returns (records: seq<Record>)
    ensures records == ProcessPostSpec(post, postIndex, stripHtml)
  {
    var clean := stripHtml(post.rawContent);
    StripBlank(clean);
    if clean == [] || Strip(clean) == [] {
      return [];
    }
    var fullText := if post.title != "" then post.title + ParagraphBreak + clean else clean;
    var chunks := ChunkText(fullText, DefaultTargetTokens, DefaultMaxTokens);
    records := BuildRecords(post, postIndex, chunks);
    RecordsAreSpec(post, postIndex, stripHtml, records);
  }

  /** The `for chunk_index, chunk in enumerate(chunks)` loop. */
  method BuildRecords(post: PostData, postIndex: int, chunks: seq<string>) returns (records: seq<Record>)
    ensures |records| == |chunks|
    ensures forall k | 0 <= k < |chunks| :: records[k] == PostRecord(post, postIndex, chunks, k)
  {
    records := [];
    for i := 0 to |chunks|
      invariant |records| == i
      invariant forall k | 0 <= k < i :: records[k] == PostRecord(post, postIndex, chunks, k)
    {
      records := records + [PostRecord(post, postIndex, chunks, i)];
    }
  }

  lemma RecordsAreSpec(post: PostData, postIndex: int, stripHtml: string -> string, records: seq<Record>)
    requires |records| == |PostChunks(post, stripHtml)|
    requires forall k | 0 <= k < |records| ::
      records[k] == PostRecord(post, postIndex, PostChunks(post, stripHtml), k)
    ensures records == ProcessPostSpec(post, postIndex, stripHtml)
  {
  }

  /** A post yields no record exactly when its content converts to an empty
      or whitespace-only text; the title alone never makes a record. */
  lemma NoRecordsIffBlankContent(post: PostData, postIndex: int, stripHtml: string -> string)
    ensures ProcessPostSpec(post, postIndex, stripHtml) == [] <==> IsBlank(stripHtml(post.rawContent))
  {
    var clean := stripHtml(post.rawContent);
    if !IsBlank(clean) {
      var full := FullText(post.title, clean);
      if post.title != "" {
        BlankConcat(post.title + ParagraphBreak, clean);
      }
      NoChunksIffBlank(full, DefaultTargetTokens, DefaultMaxTokens);
    }
  }

  /** The records of one post have pairwise distinct ids. */
  lemma RecordIdsDistinct(post: PostData, postIndex: int, stripHtml: string -> string, i: nat, j: nat)
    requires i < |ProcessPostSpec(post, postIndex, stripHtml)| && j < |ProcessPostSpec(post, postIndex, stripHtml)|
    ensures ProcessPostSpec(post, postIndex, stripHtml)[i].id == ProcessPostSpec(post, postIndex, stripHtml)[j].id
        <==> i == j
  {
    ChunkIdInjective(IdPrefix + PyStr(post.postId), i, j);
  }

  /** A short post with content becomes one record: its title, a paragraph
      break, and the converted content. */
  lemma ShortPostOneRecord(post: PostData, postIndex: int, stripHtml: string -> string)
    requires post.title != "" && !IsBlank(stripHtml(post.rawContent))
    requires EstimateTokens(post.title + ParagraphBreak + stripHtml(post.rawContent)) <= DefaultMaxTokens
    ensures |ProcessPostSpec(post, postIndex, stripHtml)| == 1
    ensures ProcessPostSpec(post, postIndex, stripHtml)[0].text
         == post.title + ParagraphBreak + stripHtml(post.rawContent)
  {
  }

  /** The `categories` and `tags` metadata give the lists back when split on
      commas, provided no name holds a comma. */
  lemma CategoriesReadBack(post: PostData, postIndex: int, stripHtml: string -> string, i: nat)
    requires i < |ProcessPostSpec(post, postIndex, stripHtml)|
    requires post.categories != [] && forall k | 0 <= k < |post.categories| :: ',' !in post.categories[k]
    ensures Split(ProcessPostSpec(post, postIndex, stripHtml)[i].metadata.categories, ",") == post.categories
  {
    CommaListRoundTrip(post.categories);
  }

  // ---------------------------------------------------------------------
  // clean_xml_content

  /** A Python code point, surrogates included. */
  newtype CodePoint = n: int | 0 <= n <= 0x10FFFF

  /** The `Char` production of XML 1.0 (section 2.2 of the W3C
      Recommendation). */
  predicate IsXmlChar(c: CodePoint) {
    c == 0x9 || c == 0xA || c == 0xD
    || (0x20 <= c <= 0xD7FF) || (0xE000 <= c <= 0xFFFD) || (0x10000 <= c <= 0x10FFFF)
  }

  /** `''.join(c for c in content if is_valid_xml_char(c))`. */
  function CleanXmlContent(content: seq<CodePoint>): seq<CodePoint> {
    Filter(content, IsXmlChar)
  }

  /** The result holds exactly the allowed characters of the input. */
  lemma CleanKeepsExactlyXmlChars(content: seq<CodePoint>, c: CodePoint)
    ensures c in CleanXmlContent(content) <==> c in content && IsXmlChar(c)
  {
    FilterMembers(content, IsXmlChar, c);
  }

  /** Every character of the result is allowed in an XML document. */
  lemma CleanIsXml(content: seq<CodePoint>)
    ensures forall k | 0 <= k < |CleanXmlContent(content)| :: IsXmlChar(CleanXmlContent(content)[k])
  {
    FilterSatisfies(content, IsXmlChar);
  }

  /** Text that is already valid is left as it is. */
  lemma CleanValidIsIdentity(content: seq<CodePoint>)
    requires forall k | 0 <= k < |content| :: IsXmlChar(content[k])
    ensures CleanXmlContent(content) == content
  {
    FilterAll(content, IsXmlChar);
  }

  /** Cleaning twice is cleaning once. */
  lemma CleanIdempotent(content: seq<CodePoint>)
    ensures CleanXmlContent(CleanXmlContent(content)) == CleanXmlContent(content)
  {
    FilterIdempotent(content, IsXmlChar);
  }

  /** Cleaning the two halves of a text separately gives the cleaned text:
      the kept characters stay in their order. */
  lemma CleanConcat(a: seq<CodePoint>, b: seq<CodePoint>)
    ensures CleanXmlContent(a + b) == CleanXmlContent(a) + CleanXmlContent(b)
  {
    FilterConcat(a, b, IsXmlChar);
  }
}
