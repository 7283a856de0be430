/** What the two ingestion scripts share beyond the chunker: the
    `<owner>_chunk_<i>` record id and the comma-joined list fields of the
    record metadata (backend/scripts/ingest_dayone.py and
    backend/scripts/ingest_wordpress.py). */
module IngestRecords {
  import opened PyText

  const ChunkInfix := "_chunk_"

  /** `f"{owner}_chunk_{i}"`. */
  function ChunkId(owner: string, i: nat): string {
    owner + ChunkInfix + NatToString(i)
  }

  /** Two chunks of one document share an id only when they are the same
      chunk. */
  lemma ChunkIdInjective(owner: string, i: nat, j: nat)
    ensures ChunkId(owner, i) == ChunkId(owner, j) <==> i == j
  {
    var n := |owner + ChunkInfix|;
    assert ChunkId(owner, i)[n..] == NatToString(i);
    assert ChunkId(owner, j)[n..] == NatToString(j);
    NatToStringInjective(i, j);
  }

  /** `",".join(xs) if xs else ""`. */
  function CommaList(xs: seq<string>): string {
    if xs == [] then "" else Join(",", xs)
  }

  /** The field reads back by splitting on commas when no item holds a
      comma. */
  lemma CommaListRoundTrip(xs: seq<string>)
    requires xs != []
    requires forall k | 0 <= k < |xs| :: ',' !in xs[k]
    ensures Split(CommaList(xs), ",") == xs
  {
    JoinSplitOnChar(',', xs);
  }
}
