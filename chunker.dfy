/** The paragraph-preferring text chunker shared by both ingestion scripts
    (`chunk_text` and `estimate_tokens`, written out identically in
    backend/scripts/ingest_wordpress.py and backend/scripts/ingest_dayone.py).

    The loop is specified by a left fold: the text is first turned into the
    sequence of "pieces" the loop visits (stripped non-blank paragraphs, or
    the ". "-fragments of an oversized paragraph), then `Step` is applied to
    each piece.  `ChunkText` is the imperative loop, proved equal to
    `ChunkSpec`; the lemmas characterise the grouping `ChunkSpec` produces. */
module Chunker {
  import opened PyText
  import opened Seqs

  const DefaultTargetTokens := 650
  const DefaultMaxTokens := 800
  const ParagraphBreak := "\n\n"
  const SentenceBreak := ". "

  /** `len(text) // 4`: roughly four characters per token. */
  function EstimateTokens(text: string): (n: nat)
    ensures 4 * n <= |text| < 4 * n + 4
  {
    |text| / 4
  }

  /** Sum of the estimates of a list of pieces, as `current_tokens` counts
      them. */
  function SumTokens(pieces: seq<string>): nat
    decreases |pieces|
  {
    if pieces == [] then 0
    else SumTokens(pieces[..|pieces| - 1]) + EstimateTokens(pieces[|pieces| - 1])
  }

  lemma SumTokensAppend(pieces: seq<string>, x: string)
    ensures SumTokens(pieces + [x]) == SumTokens(pieces) + EstimateTokens(x)
  {
    assert (pieces + [x])[..|pieces|] == pieces;
  }

  /** What one raw paragraph contributes to the loop: nothing when it strips
      to the empty string, its ". "-fragments when its stripped form is over
      the maximum, and otherwise the stripped paragraph itself. */
  function ParagraphPieces(raw: string, maxTokens: int): seq<string> {
    var p := Strip(raw);
    if p == "" then []
    else if EstimateTokens(p) > maxTokens then Split(p, SentenceBreak)
    else [p]
  }

  /** The pieces the loop visits, in order. */
  function Pieces(paragraphs: seq<string>, maxTokens: int): seq<string>
    decreases |paragraphs|
  {
    if paragraphs == [] then []
    else Pieces(paragraphs[..|paragraphs| - 1], maxTokens)
         + ParagraphPieces(paragraphs[|paragraphs| - 1], maxTokens)
  }

  lemma PiecesPrefix(paragraphs: seq<string>, i: nat, maxTokens: int)
    requires i < |paragraphs|
    ensures Pieces(paragraphs[..i + 1], maxTokens)
         == Pieces(paragraphs[..i], maxTokens) + ParagraphPieces(paragraphs[i], maxTokens)
  {
    assert paragraphs[..i + 1][..i] == paragraphs[..i];
  }

  /** The loop's state: chunks already emitted (as their piece lists),
      `current_chunk` and `current_tokens`. */
  datatype Acc = Acc(closed: seq<seq<string>>, current: seq<string>, tokens: int)

  const Start := Acc([], [], 0)

  /** One iteration of either inner branch: close the current chunk when the
      piece would push it over the target and it is not empty, otherwise
      append the piece. */
  function Step(a: Acc, piece: string, targetTokens: int): Acc {
    var t := EstimateTokens(piece);
    if a.tokens + t > targetTokens && a.current != [] then
      Acc(a.closed + [a.current], [piece], t)
    else
      Acc(a.closed, a.current + [piece], a.tokens + t)
  }

  function Run(a: Acc, pieces: seq<string>, targetTokens: int): Acc
    decreases |pieces|
  {
    if pieces == [] then a
    else Step(Run(a, pieces[..|pieces| - 1], targetTokens), pieces[|pieces| - 1], targetTokens)
  }

  lemma RunAppend(a: Acc, pieces: seq<string>, x: string, targetTokens: int)
    ensures Run(a, pieces + [x], targetTokens) == Step(Run(a, pieces, targetTokens), x, targetTokens)
  {
    assert (pieces + [x])[..|pieces|] == pieces;
  }

  /** The final "add remaining chunk". */
  function Flush(a: Acc): seq<seq<string>> {
    if a.current == [] then a.closed else a.closed + [a.current]
  }

  /** The piece lists of the emitted chunks. */
  function Groups(pieces: seq<string>, targetTokens: int): seq<seq<string>> {
    Flush(Run(Start, pieces, targetTokens))
  }

  /** `'\n\n'.join(group)` for each group. */
  function JoinGroups(groups: seq<seq<string>>): (r: seq<string>)
    ensures |r| == |groups|
    ensures forall k | 0 <= k < |groups| :: r[k] == Join(ParagraphBreak, groups[k])
    decreases |groups|
  {
    if groups == [] then []
    else JoinGroups(groups[..|groups| - 1]) + [Join(ParagraphBreak, groups[|groups| - 1])]
  }

  lemma JoinGroupsAppend(groups: seq<seq<string>>, g: seq<string>)
    ensures JoinGroups(groups + [g]) == JoinGroups(groups) + [Join(ParagraphBreak, g)]
  {
    assert (groups + [g])[..|groups|] == groups;
  }

  /** `chunk_text(text, target_tokens, max_tokens)`. */
  function ChunkSpec(text: string, targetTokens: int, maxTokens: int): seq<string> {
    if EstimateTokens(text) <= maxTokens then [text]
    else JoinGroups(Groups(Pieces(Split(text, ParagraphBreak), maxTokens), targetTokens))
  }

  /** The body both branches of the loop share: close `current_chunk` and
      start a new one with `piece` when `piece` would push it over the
      target, otherwise append `piece` to it. */
  method AddPiece(piece: string, targetTokens: int,
                  chunks: seq<string>, ghost closed: seq<seq<string>>,
                  currentChunk: seq<string>, currentTokens: int)
    returns (chunks': seq<string>, ghost closed': seq<seq<string>>,
             currentChunk': seq<string>, currentTokens': int)
    requires chunks == JoinGroups(closed)
    ensures Acc(closed', currentChunk', currentTokens')
         == Step(Acc(closed, currentChunk, currentTokens), piece, targetTokens)
    ensures chunks' == JoinGroups(closed')
  {
    var pieceTokens := EstimateTokens(piece);
    if currentTokens + pieceTokens > targetTokens && currentChunk != [] {
      JoinGroupsAppend(closed, currentChunk);
      chunks' := chunks + [Join(ParagraphBreak, currentChunk)];
      closed' := closed + [currentChunk];
      currentChunk' := [piece];
      currentTokens' := pieceTokens;
    } else {
      chunks', closed' := chunks, closed;
      currentChunk' := currentChunk + [piece];
      currentTokens' := currentTokens + pieceTokens;
    }
  }

  /** The body of the outer loop: strip one paragraph and feed it, or its
      sentences when it is too long, to `AddPiece`. */
  method AddParagraph(raw: string, targetTokens: int, maxTokens: int,
                      chunks: seq<string>, ghost closed: seq<seq<string>>,
                      currentChunk: seq<string>, currentTokens: int,
                      ghost visited: seq<string>)
    returns (chunks': seq<string>, ghost closed': seq<seq<string>>,
             currentChunk': seq<string>, currentTokens': int,
             ghost visited': seq<string>)
    requires Run(Start, visited, targetTokens) == Acc(closed, currentChunk, currentTokens)
    requires chunks == JoinGroups(closed)
    ensures visited' == visited + ParagraphPieces(raw, maxTokens)
    ensures Run(Start, visited', targetTokens) == Acc(closed', currentChunk', currentTokens')
    ensures chunks' == JoinGroups(closed')
  {
    chunks', closed', currentChunk', currentTokens', visited' :=
      chunks, closed, currentChunk, currentTokens, visited;
    var paragraph := Strip(raw);
    if paragraph == "" {
      assert ParagraphPieces(raw, maxTokens) == [];
      return;
    }
    var paraTokens := EstimateTokens(paragraph);
    if paraTokens > maxTokens {
      var sentences := Split(paragraph, SentenceBreak);
      assert ParagraphPieces(raw, maxTokens) == sentences;
      for j := 0 to |sentences|
        invariant visited' == visited + sentences[..j]
        invariant Run(Start, visited', targetTokens) == Acc(closed', currentChunk', currentTokens')
        invariant chunks' == JoinGroups(closed')
      {
        RunAppend(Start, visited', sentences[j], targetTokens);
        ConcatPrefix(visited, sentences, j);
        visited' := visited' + [sentences[j]];
        chunks', closed', currentChunk', currentTokens' :=
          AddPiece(sentences[j], targetTokens, chunks', closed', currentChunk', currentTokens');
      }
      ConcatWhole(visited, sentences);
    } else {
      assert ParagraphPieces(raw, maxTokens) == [paragraph];
      RunAppend(Start, visited, paragraph, targetTokens);
      visited' := visited + [paragraph];
      chunks', closed', currentChunk', currentTokens' :=
        AddPiece(paragraph, targetTokens, chunks, closed, currentChunk, currentTokens);
    }
  }

  /** `chunk_text`, as the Python loop runs it. */
  method ChunkText(text: string, targetTokens: int, maxTokens: int) returns (chunks: seq<string>)
    ensures chunks == ChunkSpec(text, targetTokens, maxTokens)
  {
    if EstimateTokens(text) <= maxTokens {
      return [text];
    }
    chunks := [];
    var paragraphs := Split(text, ParagraphBreak);
    var currentChunk: seq<string> := [];
    var currentTokens := 0;
    // the chunks emitted so far, as piece lists, and the pieces visited
    ghost var closed: seq<seq<string>> := [];
    ghost var visited: seq<string> := [];
    assert Pieces(paragraphs[..0], maxTokens) == [];

    for i := 0 to |paragraphs|
      invariant visited == Pieces(paragraphs[..i], maxTokens)
      invariant Run(Start, visited, targetTokens) == Acc(closed, currentChunk, currentTokens)
      invariant chunks == JoinGroups(closed)
    {
      PiecesPrefix(paragraphs, i, maxTokens);
      chunks, closed, currentChunk, currentTokens, visited :=
        AddParagraph(paragraphs[i], targetTokens, maxTokens,
                     chunks, closed, currentChunk, currentTokens, visited);
    }
    ConcatWhole([], paragraphs);
    if currentChunk != [] {
      JoinGroupsAppend(closed, currentChunk);
      chunks := chunks + [Join(ParagraphBreak, currentChunk)];
    }
  }

  lemma ConcatPrefix(before: seq<string>, xs: seq<string>, j: nat)
    requires j < |xs|
    ensures before + xs[..j + 1] == (before + xs[..j]) + [xs[j]]
  {
  }

  lemma ConcatWhole<T>(before: seq<T>, xs: seq<T>)
    ensures before + xs[..|xs|] == before + xs
    ensures xs[..|xs|] == xs
  {
  }

  // ---------------------------------------------------------------------
  // What the grouping is: a greedy packing of the pieces, in order.

  /** `groups` covers `pieces` in order with non-empty groups; a group of two
      or more pieces stays within the target; and every group was closed only
      because the next piece would have pushed it over the target. */
  predicate Greedy(groups: seq<seq<string>>, pieces: seq<string>, targetTokens: int) {
    && Flatten(groups) == pieces
    && (forall k | 0 <= k < |groups| :: groups[k] != [])
    && (forall k | 0 <= k < |groups| :: |groups[k]| >= 2 ==> SumTokens(groups[k]) <= targetTokens)
    && (forall k | 0 <= k < |groups| - 1 ::
          SumTokens(groups[k]) + EstimateTokens(groups[k + 1][0]) > targetTokens)
  }

  /** What holds of the loop state after visiting `pieces`. */
  predicate RunInv(a: Acc, pieces: seq<string>, targetTokens: int) {
    && (a.current == [] <==> pieces == [])
    && (a.current == [] ==> a.closed == [])
    && a.tokens == SumTokens(a.current)
    && Greedy(Flush(a), pieces, targetTokens)
  }

  /** Opening a new group with `x` keeps the grouping greedy when `x` does
      not fit after the last group. */
  lemma GreedyNewGroup(groups: seq<seq<string>>, pieces: seq<string>, x: string, targetTokens: int)
    requires Greedy(groups, pieces, targetTokens)
    requires groups != [] ==> SumTokens(groups[|groups| - 1]) + EstimateTokens(x) > targetTokens
    ensures Greedy(groups + [[x]], pieces + [x], targetTokens)
  {
    FlattenAppend(groups, [x]);
    var g' := groups + [[x]];
    forall k | 0 <= k < |g'| - 1
      ensures SumTokens(g'[k]) + EstimateTokens(g'[k + 1][0]) > targetTokens
    {
      if k < |groups| - 1 {
        assert g'[k] == groups[k] && g'[k + 1] == groups[k + 1];
      }
    }
  }

  /** Replacing the last group by another one that starts with the same
      piece and, when it has two or more pieces, stays within the target,
      keeps the grouping greedy. */
  lemma GreedyReplaceLast(groups: seq<seq<string>>, pieces: seq<string>, h: seq<string>, targetTokens: int)
    requires Greedy(groups, pieces, targetTokens) && groups != []
    requires h != [] && h[0] == groups[|groups| - 1][0]
    requires |h| >= 2 ==> SumTokens(h) <= targetTokens
    ensures Greedy(groups[..|groups| - 1] + [h], Flatten(groups[..|groups| - 1]) + h, targetTokens)
  {
    var init := groups[..|groups| - 1];
    FlattenAppend(init, h);
    var g' := init + [h];
    ReplaceLastNonEmpty(groups, g', h);
    ReplaceLastWithin(groups, g', h, targetTokens);
    ReplaceLastMaximal(groups, g', h, targetTokens);
  }

  lemma ReplaceLastNonEmpty(groups: seq<seq<string>>, g': seq<seq<string>>, h: seq<string>)
    requires groups != [] && h != [] && g' == groups[..|groups| - 1] + [h]
    requires forall k | 0 <= k < |groups| :: groups[k] != []
    ensures forall k | 0 <= k < |g'| :: g'[k] != []
  {
    forall k | 0 <= k < |g'| ensures g'[k] != [] {
      if k < |groups| - 1 {
        assert g'[k] == groups[k];
      }
    }
  }

  lemma ReplaceLastWithin(groups: seq<seq<string>>, g': seq<seq<string>>, h: seq<string>, targetTokens: int)
    requires groups != [] && g' == groups[..|groups| - 1] + [h]
    requires |h| >= 2 ==> SumTokens(h) <= targetTokens
    requires forall k | 0 <= k < |groups| :: |groups[k]| >= 2 ==> SumTokens(groups[k]) <= targetTokens
    ensures forall k | 0 <= k < |g'| :: |g'[k]| >= 2 ==> SumTokens(g'[k]) <= targetTokens
  {
    forall k | 0 <= k < |g'| && |g'[k]| >= 2 ensures SumTokens(g'[k]) <= targetTokens {
      if k < |groups| - 1 {
        assert g'[k] == groups[k];
      } else {
        assert g'[k] == h;
      }
    }
  }

  lemma ReplaceLastMaximal(groups: seq<seq<string>>, g': seq<seq<string>>, h: seq<string>, targetTokens: int)
    requires groups != [] && g' == groups[..|groups| - 1] + [h]
    requires forall k | 0 <= k < |g'| :: g'[k] != []
    requires forall k | 0 <= k < |groups| :: groups[k] != []
    requires h != [] && h[0] == groups[|groups| - 1][0]
    requires forall k | 0 <= k < |groups| - 1 ::
      SumTokens(groups[k]) + EstimateTokens(groups[k + 1][0]) > targetTokens
    ensures forall k | 0 <= k < |g'| - 1 ::
      SumTokens(g'[k]) + EstimateTokens(g'[k + 1][0]) > targetTokens
  {
    forall k | 0 <= k < |g'| - 1
      ensures SumTokens(g'[k]) + EstimateTokens(g'[k + 1][0]) > targetTokens
    {
      assert g'[k] == groups[k];
      if k + 1 < |groups| - 1 {
        assert g'[k + 1] == groups[k + 1];
      } else {
        assert g'[k + 1] == h;
      }
    }
  }

  /** Appending `x` to the last group keeps the grouping greedy when the
      extended group stays within the target. */
  lemma GreedyExtendLast(groups: seq<seq<string>>, pieces: seq<string>, x: string, targetTokens: int)
    requires Greedy(groups, pieces, targetTokens) && groups != []
    requires SumTokens(groups[|groups| - 1] + [x]) <= targetTokens
    ensures Greedy(groups[..|groups| - 1] + [groups[|groups| - 1] + [x]], pieces + [x], targetTokens)
  {
    var last := groups[|groups| - 1];
    GreedyReplaceLast(groups, pieces, last + [x], targetTokens);
    FlattenLast(groups);
    assert Flatten(groups[..|groups| - 1]) + (last + [x]) == pieces + [x];
  }

  lemma StepOpensFirst(a: Acc, pieces: seq<string>, x: string, targetTokens: int)
    requires RunInv(a, pieces, targetTokens) && a.current == []
    ensures RunInv(Step(a, x, targetTokens), pieces + [x], targetTokens)
  {
    assert pieces == [] && Flush(a) == [];
    GreedyNewGroup([], pieces, x, targetTokens);
    assert Step(a, x, targetTokens) == Acc([], [x], EstimateTokens(x));
    SumTokensAppend([], x);
    assert [] + [x] == [x];
  }

  lemma StepCloses(a: Acc, pieces: seq<string>, x: string, targetTokens: int)
    requires RunInv(a, pieces, targetTokens) && a.current != []
    requires a.tokens + EstimateTokens(x) > targetTokens
    ensures RunInv(Step(a, x, targetTokens), pieces + [x], targetTokens)
  {
    GreedyNewGroup(Flush(a), pieces, x, targetTokens);
    var b := Step(a, x, targetTokens);
    assert b == Acc(a.closed + [a.current], [x], EstimateTokens(x));
    assert Flush(b) == Flush(a) + [[x]];
    SumTokensAppend([], x);
    assert [] + [x] == [x];
  }

  lemma StepExtends(a: Acc, pieces: seq<string>, x: string, targetTokens: int)
    requires RunInv(a, pieces, targetTokens) && a.current != []
    requires a.tokens + EstimateTokens(x) <= targetTokens
    ensures RunInv(Step(a, x, targetTokens), pieces + [x], targetTokens)
  {
    SumTokensAppend(a.current, x);
    GreedyExtendLast(Flush(a), pieces, x, targetTokens);
    var b := Step(a, x, targetTokens);
    assert b == Acc(a.closed, a.current + [x], a.tokens + EstimateTokens(x));
    assert Flush(a)[..|Flush(a)| - 1] == a.closed;
    assert Flush(b) == a.closed + [a.current + [x]];
  }

  lemma StepKeepsInv(a: Acc, pieces: seq<string>, x: string, targetTokens: int)
    requires RunInv(a, pieces, targetTokens)
    ensures RunInv(Step(a, x, targetTokens), pieces + [x], targetTokens)
  {
    if a.current == [] {
      StepOpensFirst(a, pieces, x, targetTokens);
    } else if a.tokens + EstimateTokens(x) > targetTokens {
      StepCloses(a, pieces, x, targetTokens);
    } else {
      StepExtends(a, pieces, x, targetTokens);
    }
  }

  lemma {:induction false} RunKeepsInv(pieces: seq<string>, targetTokens: int)
    ensures RunInv(Run(Start, pieces, targetTokens), pieces, targetTokens)
    decreases |pieces|
  {
    if pieces != [] {
      var init := pieces[..|pieces| - 1];
      var x := pieces[|pieces| - 1];
      assert init + [x] == pieces;
      RunKeepsInv(init, targetTokens);
      StepKeepsInv(Run(Start, init, targetTokens), init, x, targetTokens);
    }
  }

  /** The chunker's grouping is greedy in the sense of `Greedy`. */
  lemma GroupsAreGreedy(pieces: seq<string>, targetTokens: int)
    ensures Greedy(Groups(pieces, targetTokens), pieces, targetTokens)
  {
    RunKeepsInv(pieces, targetTokens);
  }

  /** Visiting `x` opens a new group when it does not fit after the last
      one. */
  lemma GroupsAppendNew(pieces: seq<string>, x: string, targetTokens: int)
    requires var gs := Groups(pieces, targetTokens);
      gs != [] ==> SumTokens(gs[|gs| - 1]) + EstimateTokens(x) > targetTokens
    ensures Groups(pieces + [x], targetTokens) == Groups(pieces, targetTokens) + [[x]]
  {
    RunAppend(Start, pieces, x, targetTokens);
    RunKeepsInv(pieces, targetTokens);
  }

  /** Visiting `x` extends the last group when the extension stays within
      the target. */
  lemma GroupsAppendExtend(pieces: seq<string>, x: string, targetTokens: int)
    requires var gs := Groups(pieces, targetTokens);
      gs != [] && SumTokens(gs[|gs| - 1] + [x]) <= targetTokens
    ensures var gs := Groups(pieces, targetTokens);
      Groups(pieces + [x], targetTokens) == gs[..|gs| - 1] + [gs[|gs| - 1] + [x]]
  {
    RunAppend(Start, pieces, x, targetTokens);
    RunKeepsInv(pieces, targetTokens);
    var a := Run(Start, pieces, targetTokens);
    SumTokensAppend(a.current, x);
    assert Flush(a) == a.closed + [a.current];
    assert Flush(a)[..|Flush(a)| - 1] == a.closed;
  }

  /** Dropping the last group of a greedy grouping leaves a greedy grouping
      of the pieces before it. */
  lemma GreedyInit(groups: seq<seq<string>>, pieces: seq<string>, targetTokens: int)
    requires Greedy(groups, pieces, targetTokens) && groups != []
    ensures var init := groups[..|groups| - 1];
      && Greedy(init, Flatten(init), targetTokens)
      && pieces == Flatten(init) + groups[|groups| - 1]
      && (init != [] ==>
            SumTokens(init[|init| - 1]) + EstimateTokens(groups[|groups| - 1][0]) > targetTokens)
  {
    var init := groups[..|groups| - 1];
    assert groups == init + [groups[|groups| - 1]];
    FlattenAppend(init, groups[|groups| - 1]);
    if init != [] {
      assert init[|init| - 1] == groups[|groups| - 2];
    }
  }

  /** Dropping the last piece of a last group of two or more pieces leaves a
      greedy grouping, which that piece extends within the target. */
  lemma GreedyShrinkLast(groups: seq<seq<string>>, pieces: seq<string>, targetTokens: int)
    requires Greedy(groups, pieces, targetTokens) && groups != []
    requires |groups[|groups| - 1]| >= 2
    ensures var last := groups[|groups| - 1];
      var g' := groups[..|groups| - 1] + [last[..|last| - 1]];
      && Greedy(g', Flatten(g'), targetTokens)
      && pieces == Flatten(g') + [last[|last| - 1]]
      && SumTokens(last) <= targetTokens
  {
    var init := groups[..|groups| - 1];
    var last := groups[|groups| - 1];
    var h := last[..|last| - 1];
    assert last == h + [last[|last| - 1]];
    SumTokensAppend(h, last[|last| - 1]);
    GreedyReplaceLast(groups, pieces, h, targetTokens);
    FlattenLast(groups);
    FlattenAppend(init, h);
  }

  /** ... and it is the only greedy grouping: `Greedy` is a complete,
      independent description of what the loop computes. */
  lemma {:induction false} GreedyIsUnique(groups: seq<seq<string>>, pieces: seq<string>, targetTokens: int)
    requires Greedy(groups, pieces, targetTokens)
    ensures groups == Groups(pieces, targetTokens)
    decreases |pieces|
  {
    if groups == [] {
      assert pieces == [];
    } else if |groups[|groups| - 1]| == 1 {
      var init := groups[..|groups| - 1];
      GreedyInit(groups, pieces, targetTokens);
      GreedyIsUnique(init, Flatten(init), targetTokens);
      UniqueWithSingleLast(groups, pieces, targetTokens);
    } else {
      var last := groups[|groups| - 1];
      var g' := groups[..|groups| - 1] + [last[..|last| - 1]];
      GreedyShrinkLast(groups, pieces, targetTokens);
      GreedyIsUnique(g', Flatten(g'), targetTokens);
      UniqueWithLongLast(groups, pieces, targetTokens);
    }
  }

  /** The inductive step of `GreedyIsUnique` when the last group is a single
      piece that did not fit after the groups before it. */
  lemma UniqueWithSingleLast(groups: seq<seq<string>>, pieces: seq<string>, targetTokens: int)
    requires groups != [] && |groups[|groups| - 1]| == 1
    requires var init := groups[..|groups| - 1];
      && init == Groups(Flatten(init), targetTokens)
      && pieces == Flatten(init) + groups[|groups| - 1]
      && (init != [] ==>
            SumTokens(init[|init| - 1]) + EstimateTokens(groups[|groups| - 1][0]) > targetTokens)
    ensures groups == Groups(pieces, targetTokens)
  {
    var init := groups[..|groups| - 1];
    var x := groups[|groups| - 1][0];
    assert groups[|groups| - 1] == [x] && groups == init + [[x]];
    GroupsAppendNew(Flatten(init), x, targetTokens);
  }

  /** The inductive step of `GreedyIsUnique` when the last group holds two
      or more pieces and its last piece extended it within the target. */
  lemma UniqueWithLongLast(groups: seq<seq<string>>, pieces: seq<string>, targetTokens: int)
    requires groups != [] && |groups[|groups| - 1]| >= 2
    requires var last := groups[|groups| - 1];
      var g' := groups[..|groups| - 1] + [last[..|last| - 1]];
      && g' == Groups(Flatten(g'), targetTokens)
      && pieces == Flatten(g') + [last[|last| - 1]]
      && SumTokens(last) <= targetTokens
    ensures groups == Groups(pieces, targetTokens)
  {
    var init := groups[..|groups| - 1];
    var last := groups[|groups| - 1];
    var x := last[|last| - 1];
    var h := last[..|last| - 1];
    var g' := init + [h];
    assert last == h + [x];
    assert g'[|g'| - 1] == h && g'[..|g'| - 1] == init;
    GroupsAppendExtend(Flatten(g'), x, targetTokens);
    assert groups == init + [h + [x]];
  }

  /** A greedy grouping with at most one group is empty or the whole input. */
  lemma GreedyAtMostOne(groups: seq<seq<string>>, pieces: seq<string>, targetTokens: int)
    requires Greedy(groups, pieces, targetTokens) && |groups| <= 1
    ensures groups == [] || groups == [pieces]
  {
    if groups != [] {
      assert groups[..0] == [];
      assert Flatten(groups[..0]) == [];
      assert Flatten(groups) == groups[0];
      assert groups == [groups[0]];
    }
  }

  /** When two or more pieces together exceed the target, they are not kept
      in one chunk. */
  lemma OverTargetSplits(pieces: seq<string>, targetTokens: int)
    requires |pieces| >= 2 && SumTokens(pieces) > targetTokens
    ensures |Groups(pieces, targetTokens)| >= 2
  {
    var gs := Groups(pieces, targetTokens);
    GroupsAreGreedy(pieces, targetTokens);
    if |gs| <= 1 {
      GreedyAtMostOne(gs, pieces, targetTokens);
    }
  }

  // ---------------------------------------------------------------------
  // What comes out for a given text.

  /** The stripped non-blank paragraphs, in order. */
  function StrippedParagraphs(paragraphs: seq<string>): seq<string>
    decreases |paragraphs|
  {
    if paragraphs == [] then []
    else
      var p := Strip(paragraphs[|paragraphs| - 1]);
      StrippedParagraphs(paragraphs[..|paragraphs| - 1]) + (if p == "" then [] else [p])
  }

  /** The loop visits nothing exactly when every paragraph is blank. */
  lemma {:induction false} PiecesEmptyIffBlank(paragraphs: seq<string>, maxTokens: int)
    ensures Pieces(paragraphs, maxTokens) == []
        <==> forall k | 0 <= k < |paragraphs| :: IsBlank(paragraphs[k])
    decreases |paragraphs|
  {
    if paragraphs != [] {
      var init := paragraphs[..|paragraphs| - 1];
      var last := paragraphs[|paragraphs| - 1];
      assert paragraphs == init + [last];
      AllBlankSnoc(init, last);
      assert Pieces(paragraphs, maxTokens) == Pieces(init, maxTokens) + ParagraphPieces(last, maxTokens);
      PiecesEmptyIffBlank(init, maxTokens);
      ParagraphPiecesEmptyIff(last, maxTokens);
    }
  }

  lemma AllBlankSnoc(init: seq<string>, last: string)
    ensures (forall k | 0 <= k < |init + [last]| :: IsBlank((init + [last])[k]))
        <==> (forall k | 0 <= k < |init| :: IsBlank(init[k])) && IsBlank(last)
  {
    assert forall k | 0 <= k < |init| :: (init + [last])[k] == init[k];
    assert (init + [last])[|init|] == last;
  }

  lemma ParagraphPiecesEmptyIff(raw: string, maxTokens: int)
    ensures ParagraphPieces(raw, maxTokens) == [] <==> IsBlank(raw)
  {
    StripBlank(raw);
  }

  lemma GroupsEmptyIff(pieces: seq<string>, targetTokens: int)
    ensures Groups(pieces, targetTokens) == [] <==> pieces == []
  {
    GroupsAreGreedy(pieces, targetTokens);
  }

  /** `chunk_text` returns no chunk at all exactly when the text is over the
      maximum and holds nothing but whitespace; any other text yields at
      least one chunk. */
  lemma NoChunksIffBlank(text: string, targetTokens: int, maxTokens: int)
    ensures ChunkSpec(text, targetTokens, maxTokens) == []
        <==> EstimateTokens(text) > maxTokens && IsBlank(text)
  {
    if EstimateTokens(text) > maxTokens {
      var paragraphs := Split(text, ParagraphBreak);
      assert IsBlank(text) <==> forall k | 0 <= k < |paragraphs| :: IsBlank(paragraphs[k]) by {
        ParagraphBreakIsBlank();
        SplitJoin(text, ParagraphBreak);
        JoinBlank(ParagraphBreak, paragraphs);
      }
      PiecesEmptyIffBlank(paragraphs, maxTokens);
      GroupsEmptyIff(Pieces(paragraphs, maxTokens), targetTokens);
    }
  }

  lemma ParagraphBreakIsBlank()
    ensures IsBlank(ParagraphBreak)
  {
    assert ParagraphBreak[0] == '\n' && ParagraphBreak[1] == '\n';
  }

  /** Holds no paragraph break and does not end with a newline: a piece of
      this shape is cut back out of a `'\n\n'.join`. */
  predicate Unbroken(p: string) {
    !Contains(p, ParagraphBreak) && (p == [] || p[|p| - 1] != '\n')
  }

  lemma UnbrokenIsLeftmostCut(p: string)
    requires Unbroken(p)
    ensures LeftmostCut(p, ParagraphBreak)
  {
    var t := p + ParagraphBreak;
    forall q: nat | q < |p| ensures !OccursAt(t, ParagraphBreak, q) {
      if q + 2 <= |p| {
        assert !OccursAt(p, ParagraphBreak, q);
        assert t[q..q + 2] == p[q..q + 2];
      } else {
        assert t[q] == p[|p| - 1];
      }
    }
  }

  /** A group of unbroken pieces is recovered by splitting its join. */
  lemma SplitJoinedGroup(g: seq<string>)
    requires g != [] && forall x <- g :: Unbroken(x)
    ensures Split(Join(ParagraphBreak, g), ParagraphBreak) == g
  {
    forall k | 0 <= k < |g| - 1 ensures LeftmostCut(g[k], ParagraphBreak) {
      UnbrokenIsLeftmostCut(g[k]);
    }
    assert Unbroken(g[|g| - 1]);
    JoinSplitRoundTrip(ParagraphBreak, g);
  }

  /** A stripped paragraph of a paragraph split is unbroken. */
  lemma StrippedUnbroken(raw: string)
    requires !Contains(raw, ParagraphBreak)
    ensures Unbroken(Strip(raw))
  {
    var p := Strip(raw);
    StripIsInfix(raw);
    if Contains(p, ParagraphBreak) {
      ContainsTrans(raw, p, ParagraphBreak);
    }
  }

  /** Without oversized paragraphs the pieces are the stripped non-blank
      paragraphs, all unbroken. */
  lemma {:induction false} PiecesAreParagraphs(paragraphs: seq<string>, maxTokens: int)
    requires forall k | 0 <= k < |paragraphs| ::
      !Contains(paragraphs[k], ParagraphBreak) && EstimateTokens(Strip(paragraphs[k])) <= maxTokens
    ensures Pieces(paragraphs, maxTokens) == StrippedParagraphs(paragraphs)
    ensures forall x <- Pieces(paragraphs, maxTokens) :: Unbroken(x)
    decreases |paragraphs|
  {
    if paragraphs != [] {
      var init := paragraphs[..|paragraphs| - 1];
      var raw := paragraphs[|paragraphs| - 1];
      assert forall k | 0 <= k < |init| :: init[k] == paragraphs[k];
      PiecesAreParagraphs(init, maxTokens);
      StrippedUnbroken(raw);
    }
  }

  /** `s.split('\n\n')` for every chunk. */
  function SplitEach(chunks: seq<string>): seq<seq<string>> {
    seq(|chunks|, k requires 0 <= k < |chunks| => Split(chunks[k], ParagraphBreak))
  }

  lemma SplitEachJoinGroups(gs: seq<seq<string>>)
    requires forall k | 0 <= k < |gs| :: gs[k] != [] && forall x <- gs[k] :: Unbroken(x)
    ensures SplitEach(JoinGroups(gs)) == gs
  {
    forall k | 0 <= k < |gs| ensures SplitEach(JoinGroups(gs))[k] == gs[k] {
      SplitJoinedGroup(gs[k]);
    }
  }

  /** No paragraph of `text.split('\n\n')` holds a paragraph break. */
  lemma ParagraphsHaveNoBreak(text: string)
    ensures forall raw <- Split(text, ParagraphBreak) :: !Contains(raw, ParagraphBreak)
  {
    var paragraphs := Split(text, ParagraphBreak);
    SplitCuts(text, ParagraphBreak);
    forall k | 0 <= k < |paragraphs| - 1
      ensures !Contains(paragraphs[k], ParagraphBreak)
    {
      LeftmostCutHasNoSep(paragraphs[k], ParagraphBreak);
    }
  }

  /** When no stripped paragraph is over the maximum, splitting the chunks
      back on paragraph breaks gives exactly the stripped non-blank
      paragraphs, in order: nothing is lost, duplicated or reordered. */
  lemma ChunksSplitBackIntoParagraphs(text: string, targetTokens: int, maxTokens: int)
    requires EstimateTokens(text) > maxTokens
    requires forall raw <- Split(text, ParagraphBreak) :: EstimateTokens(Strip(raw)) <= maxTokens
    ensures Flatten(SplitEach(ChunkSpec(text, targetTokens, maxTokens)))
         == StrippedParagraphs(Split(text, ParagraphBreak))
  {
    var paragraphs := Split(text, ParagraphBreak);
    ParagraphsHaveNoBreak(text);
    PiecesAreParagraphs(paragraphs, maxTokens);
    var pieces := Pieces(paragraphs, maxTokens);
    var gs := Groups(pieces, targetTokens);
    GroupsAreGreedy(pieces, targetTokens);
    forall k, x | 0 <= k < |gs| && x in gs[k] ensures Unbroken(x) {
      FlattenMember(gs, k, x);
    }
    SplitEachJoinGroups(gs);
  }

  /** A text within the maximum is passed through whole, unstripped; in
      particular the empty text gives one empty chunk. */
  lemma ShortTextIsOneChunk(text: string, targetTokens: int, maxTokens: int)
    requires EstimateTokens(text) <= maxTokens
    ensures ChunkSpec(text, targetTokens, maxTokens) == [text]
    ensures 0 <= maxTokens ==> ChunkSpec("", targetTokens, maxTokens) == [""]
  {
  }

  /** On the split path, chunk `k` is the `'\n\n'`-join of group `k` of a
      greedy packing of the pieces the loop visits: the groups read in order
      are exactly those pieces, a group of two or more stays within the
      target, and a group is closed only when the next piece would overflow
      it. */
  lemma SplitPathIsGreedyPacking(text: string, targetTokens: int, maxTokens: int)
    requires EstimateTokens(text) > maxTokens
    ensures var pieces := Pieces(Split(text, ParagraphBreak), maxTokens);
            && |ChunkSpec(text, targetTokens, maxTokens)| == |Groups(pieces, targetTokens)|
            && Greedy(Groups(pieces, targetTokens), pieces, targetTokens)
    ensures forall k | 0 <= k < |ChunkSpec(text, targetTokens, maxTokens)| ::
              ChunkSpec(text, targetTokens, maxTokens)[k]
              == Join(ParagraphBreak, Groups(Pieces(Split(text, ParagraphBreak), maxTokens), targetTokens)[k])
  {
    GroupsAreGreedy(Pieces(Split(text, ParagraphBreak), maxTokens), targetTokens);
  }

  predicate AllLetterA(a: string) {
    forall i | 0 <= i < |a| :: a[i] == 'a'
  }

  lemma LettersHaveNoBreaks(a: string)
    requires AllLetterA(a)
    ensures !Contains(a, SentenceBreak) && LeftmostCut(a, SentenceBreak)
    ensures !Contains(a + ". . " + a, ParagraphBreak)
  {
    forall p: nat | p <= |a| ensures !OccursAt(a, SentenceBreak, p) {
      if p + 2 <= |a| { assert a[p..p + 2][0] == a[p]; }
    }
    forall p: nat | p < |a| ensures !OccursAt(a + SentenceBreak, SentenceBreak, p) {
      assert (a + SentenceBreak)[p] == 'a';
      if p + 2 <= |a + SentenceBreak| {
        assert (a + SentenceBreak)[p..p + 2][0] == (a + SentenceBreak)[p];
      }
    }
    var text := a + ". . " + a;
    forall p: nat | p <= |text| ensures !OccursAt(text, ParagraphBreak, p) {
      if p + 2 <= |text| {
        assert text[p..p + 2][0] == text[p];
        assert text[p] in {'a', '.', ' '};
      }
    }
  }

  lemma LettersParagraph(a: string)
    requires AllLetterA(a)
    ensures Split(a + ". . " + a, ParagraphBreak) == [a + ". . " + a]
  {
    LettersHaveNoBreaks(a);
    SplitUnique(a + ". . " + a, ParagraphBreak, [a + ". . " + a]);
  }

  lemma LettersStripped(a: string)
    requires a != [] && AllLetterA(a)
    ensures Strip(a + ". . " + a) == a + ". . " + a
  {
    var text := a + ". . " + a;
    assert text[0] == 'a' && text[|text| - 1] == 'a';
  }

  lemma LettersSentences(a: string)
    requires AllLetterA(a)
    ensures Split(a + ". . " + a, SentenceBreak) == [a, "", a]
  {
    LettersHaveNoBreaks(a);
    var text := a + ". . " + a;
    var fragments := [a, "", a];
    assert Join(SentenceBreak, fragments) == text by {
      assert fragments[1..] == ["", a] && fragments[1..][1..] == [a];
      assert Join(SentenceBreak, ["", a]) == "" + SentenceBreak + a;
      assert text == a + SentenceBreak + ("" + SentenceBreak + a);
    }
    JoinSplitRoundTrip(SentenceBreak, fragments);
  }

  lemma PiecesSingle(p: string, maxTokens: int)
    ensures Pieces([p], maxTokens) == ParagraphPieces(p, maxTokens)
  {
    assert [p][..0] == [];
  }

  lemma OversizedParagraph(p: string, maxTokens: int)
    requires p != [] && Strip(p) == p && maxTokens < EstimateTokens(p)
    ensures ParagraphPieces(p, maxTokens) == Split(p, SentenceBreak)
  {
  }

  lemma FragmentGroups(a: string, targetTokens: int)
    requires targetTokens < EstimateTokens(a)
    ensures Groups([a, "", a], targetTokens) == [[a], [""], [a]]
  {
    var t := EstimateTokens(a);
    RunAppend(Start, [], a, targetTokens);
    assert [] + [a] == [a];
    assert Run(Start, [a], targetTokens) == Acc([], [a], t);
    RunAppend(Start, [a], "", targetTokens);
    assert [a] + [""] == [a, ""];
    assert Run(Start, [a, ""], targetTokens) == Acc([[a]], [""], 0);
    RunAppend(Start, [a, ""], a, targetTokens);
    assert [a, ""] + [a] == [a, "", a];
    assert Run(Start, [a, "", a], targetTokens) == Acc([[a], [""]], [a], t);
  }

  /** An empty chunk can be emitted: when an oversized paragraph holds
      ". . ", its empty fragment is a piece like any other and, after a
      fragment over the target, ends up alone in a chunk.  With the default
      limits any run of 2604 or more letters `a` will do. */
  lemma EmptyChunkFromEmptyFragment(a: string, targetTokens: int, maxTokens: int)
    requires a != [] && AllLetterA(a)
    requires targetTokens < EstimateTokens(a)
    requires maxTokens < EstimateTokens(a + ". . " + a)
    ensures ChunkSpec(a + ". . " + a, targetTokens, maxTokens) == [a, "", a]
  {
    var text := a + ". . " + a;
    LettersParagraph(a);
    LettersStripped(a);
    LettersSentences(a);
    PiecesSingle(text, maxTokens);
    OversizedParagraph(text, maxTokens);
    FragmentGroups(a, targetTokens);
    JoinSingletons(a);
  }

  lemma JoinSingletons(a: string)
    ensures JoinGroups([[a], [""], [a]]) == [a, "", a]
  {
    var r := JoinGroups([[a], [""], [a]]);
    assert r[0] == a && r[1] == "" && r[2] == a;
  }

  /** A single paragraph over the maximum is still cut into several chunks
      when its ". "-fragments together exceed the target. */
  lemma OversizedParagraphSplits(p: string, targetTokens: int, maxTokens: int)
    requires !Contains(p, ParagraphBreak) && Strip(p) == p
    requires maxTokens < EstimateTokens(p)
    requires |Split(p, SentenceBreak)| >= 2 && SumTokens(Split(p, SentenceBreak)) > targetTokens
    ensures |ChunkSpec(p, targetTokens, maxTokens)| >= 2
  {
    FindLeftmost(p, ParagraphBreak);
    assert Split(p, ParagraphBreak) == [p];
    PiecesSingle(p, maxTokens);
    OversizedParagraph(p, maxTokens);
    OverTargetSplits(Split(p, SentenceBreak), targetTokens);
  }
}
