/** The DayOne journal ingestion (backend/scripts/ingest_dayone.py):
    `parse_dayone_entry` normalises an exported entry, `process_entry` turns
    it into one store record per chunk of its text. */
module DayOne {
  import opened Wrappers
  import opened PyText
  import opened Chunker
  import opened IngestRecords

  /** A photo object of the export; only its `identifier` key is read. */
  datatype RawPhoto = RawPhoto(identifier: Option<string>)

  /** An entry object of the export; `None` is a missing key. */
  datatype RawEntry = RawEntry(
    uuid: Option<string>,
    creationDate: Option<string>,
    text: Option<string>,
    tags: Option<seq<string>>,
    photos: Option<seq<RawPhoto>>)

  /** The parsed entry, every field present. */
  datatype Entry = Entry(
    uuid: string,
    creationDate: string,
    text: string,
    tags: seq<string>,
    photos: seq<string>)

  /** `[photo.get("identifier", "") for photo in photos]`. */
  function PhotoIdentifiers(photos: seq<RawPhoto>): (r: seq<string>)
    ensures |r| == |photos|
    ensures forall i | 0 <= i < |photos| :: r[i] == photos[i].identifier.GetOr("")
    decreases |photos|
  {
    if photos == [] then []
    else PhotoIdentifiers(photos[..|photos| - 1]) + [photos[|photos| - 1].identifier.GetOr("")]
  }

  /** `parse_dayone_entry`: a missing text field becomes `""`, a missing list
      `[]`. */
  function ParseEntry(raw: RawEntry): (e: Entry)
    ensures raw.uuid.None? ==> e.uuid == ""
    ensures raw.creationDate.None? ==> e.creationDate == ""
    ensures raw.text.None? ==> e.text == ""
    ensures raw.tags.None? ==> e.tags == []
    ensures raw.photos.None? ==> e.photos == []
  {
    Entry(raw.uuid.GetOr(""), raw.creationDate.GetOr(""), raw.text.GetOr(""),
          raw.tags.GetOr([]), PhotoIdentifiers(raw.photos.GetOr([])))
  }

  /** The export object an entry is read from when every key is present. */
  function Render(e: Entry): RawEntry {
    RawEntry(Some(e.uuid), Some(e.creationDate), Some(e.text), Some(e.tags),
             Some(seq(|e.photos|, i requires 0 <= i < |e.photos| => RawPhoto(Some(e.photos[i])))))
  }

  /** Parsing loses nothing of an entry whose keys are all present. */
  lemma ParseRender(e: Entry)
    ensures ParseEntry(Render(e)) == e
  {
    var ps := Render(e).photos.value;
    assert PhotoIdentifiers(ps) == e.photos;
  }

  // ---------------------------------------------------------------------
  // process_entry

  const SourceType := "dayone"

  datatype Metadata = Metadata(
    sourceType: string,
    entryId: string,
    entryIndex: int,
    chunkIndex: nat,
    totalChunks: nat,
    date: string,
    tags: string,
    hasPhotos: bool,
    photoCount: nat)

  datatype Record = Record(id: string, text: string, metadata: Metadata)

  /** The chunks `process_entry` makes records of: none for an empty or
      whitespace-only text, `chunk_text(text)` otherwise. */
  function EntryChunks(e: Entry): seq<string> {
    if IsBlank(e.text) then [] else ChunkSpec(e.text, DefaultTargetTokens, DefaultMaxTokens)
  }

  /** The record of chunk `i` of `chunks`. */
  function EntryRecord(e: Entry, entryIndex: int, chunks: seq<string>, i: nat): Record
    requires i < |chunks|
  {
    Record(ChunkId(e.uuid, i), chunks[i],
           Metadata(SourceType, e.uuid, entryIndex, i, |chunks|, e.creationDate,
                    CommaList(e.tags), |e.photos| > 0, |e.photos|))
  }

  /** The records `process_entry(entry, entry_index)` returns: record `i` holds
      chunk `i` under id `<uuid>_chunk_<i>`, with its position, the chunk
      count, the entry's index, date, comma-joined tags and photo count. */
  function ProcessEntrySpec(e: Entry, entryIndex: int): (r: seq<Record>)
    ensures |r| == |EntryChunks(e)|
    ensures forall i | 0 <= i < |r| ::
      && r[i].id == ChunkId(e.uuid, i)
      && r[i].text == EntryChunks(e)[i]
      && r[i].metadata.sourceType == SourceType
      && r[i].metadata.entryId == e.uuid
      && r[i].metadata.entryIndex == entryIndex
      && r[i].metadata.chunkIndex == i
      && r[i].metadata.totalChunks == |r|
      && r[i].metadata.date == e.creationDate
      && r[i].metadata.tags == CommaList(e.tags)
      && r[i].metadata.photoCount == |e.photos|
      && (r[i].metadata.hasPhotos <==> r[i].metadata.photoCount > 0)
  {
    var chunks := EntryChunks(e);
    var r := seq(|chunks|, i requires 0 <= i < |chunks| => EntryRecord(e, entryIndex, chunks, i));
    assert forall i | 0 <= i < |r| :: r[i] == EntryRecord(e, entryIndex, chunks, i);
    r
  }

  /** `process_entry`: the loop appending one record per chunk. */
  method ProcessEntry(e: Entry, entryIndex: int) returns (records: seq<Record>)
    ensures records == ProcessEntrySpec(e, entryIndex)
  {
    StripBlank(e.text);
    if e.text == [] || Strip(e.text) == [] {
      return [];
    }
    var chunks := ChunkText(e.text, DefaultTargetTokens, DefaultMaxTokens);
    records := BuildRecords(e, entryIndex, chunks);
    RecordsAreSpec(e, entryIndex, records);
  }

  /** The `for chunk_index, chunk in enumerate(chunks)` loop. */
  method BuildRecords(e: Entry, entryIndex: int, chunks: seq<string>) returns (records: seq<Record>)
    ensures |records| == |chunks|
    ensures forall k | 0 <= k < |chunks| :: records[k] == EntryRecord(e, entryIndex, chunks, k)
  {
    records := [];
    for i := 0 to |chunks|
      invariant |records| == i
      invariant forall k | 0 <= k < i :: records[k] == EntryRecord(e, entryIndex, chunks, k)
    {
      records := records + [EntryRecord(e, entryIndex, chunks, i)];
    }
  }

  lemma RecordsAreSpec(e: Entry, entryIndex: int, records: seq<Record>)
    requires |records| == |EntryChunks(e)|
    requires forall k | 0 <= k < |records| :: records[k] == EntryRecord(e, entryIndex, EntryChunks(e), k)
    ensures records == ProcessEntrySpec(e, entryIndex)
  {
  }

  /** An entry yields no record exactly when its text is empty or
      whitespace-only. */
  lemma NoRecordsIffBlank(e: Entry, entryIndex: int)
    ensures ProcessEntrySpec(e, entryIndex) == [] <==> IsBlank(e.text)
  {
    NoChunksIffBlank(e.text, DefaultTargetTokens, DefaultMaxTokens);
  }

  /** The records of one entry have pairwise distinct ids. */
  lemma RecordIdsDistinct(e: Entry, entryIndex: int, i: nat, j: nat)
    requires i < |ProcessEntrySpec(e, entryIndex)| && j < |ProcessEntrySpec(e, entryIndex)|
    ensures ProcessEntrySpec(e, entryIndex)[i].id == ProcessEntrySpec(e, entryIndex)[j].id <==> i == j
  {
    ChunkIdInjective(e.uuid, i, j);
  }

  /** A non-blank entry within the maximum becomes one record holding its
      whole text, unstripped. */
  lemma ShortEntryOneRecord(e: Entry, entryIndex: int)
    requires !IsBlank(e.text) && EstimateTokens(e.text) <= DefaultMaxTokens
    ensures |ProcessEntrySpec(e, entryIndex)| == 1
    ensures ProcessEntrySpec(e, entryIndex)[0].text == e.text
    ensures ProcessEntrySpec(e, entryIndex)[0].id == e.uuid + "_chunk_0"
  {
    assert NatToString(0) == "0";
  }

  /** The `tags` metadata gives the tag list back when split on commas,
      provided no tag holds a comma. */
  lemma TagsReadBack(e: Entry, entryIndex: int, i: nat)
    requires i < |ProcessEntrySpec(e, entryIndex)|
    requires e.tags != [] && forall k | 0 <= k < |e.tags| :: ',' !in e.tags[k]
    ensures Split(ProcessEntrySpec(e, entryIndex)[i].metadata.tags, ",") == e.tags
  {
    CommaListRoundTrip(e.tags);
  }
}
