/**
 * Chunking a whole document: its sections are chunked in order, the overlap
 * of each section's last chunk is carried into the next section, and only
 * chunks of at least the minimum size are kept, numbered from 0.
 */
module Chunker {
  import opened Wrappers
  import opened Text
  import opened ChunkWords
  import opened ChunkOverlap
  import opened ChunkSections
  import opened ChunkPack
  import opened IndexerModels

  /** The default sizes, in words. */
  const DefaultTargetChunkSize: int := 1000
  const DefaultMaxChunkSize: int := 2500
  const DefaultMinChunkSize: int := 200
  const DefaultOverlapSize: int := 150

  /** The sizes `chunk_document` is called with. */
  datatype Sizes = Sizes(target: int, maxSize: int, minSize: int, overlap: int)

  const DefaultSizes: Sizes := Sizes(DefaultTargetChunkSize, DefaultMaxChunkSize, DefaultMinChunkSize, DefaultOverlapSize)

  /** The chunk id: the document id with '/' replaced by '_', then "_chunk_" and the index padded to three digits. */
  function ChunkId(docId: string, index: nat): string {
    ReplaceChar(docId, '/', '_') + "_chunk_" + ZeroPad(NatToString(index), 3)
  }

  /** Chunks of one document at different indices have different ids. */
  lemma ChunkIdsDiffer(docId: string, i: nat, j: nat)
    requires i != j
    ensures ChunkId(docId, i) != ChunkId(docId, j)
  {
    var prefix := ReplaceChar(docId, '/', '_') + "_chunk_";
    if ChunkId(docId, i) == ChunkId(docId, j) {
      assert ChunkId(docId, i)[|prefix|..] == ZeroPad(NatToString(i), 3);
      assert ChunkId(docId, j)[|prefix|..] == ZeroPad(NatToString(j), 3);
      ZeroPadInjective(i, j, 3);
    }
  }

  /** The raw chunks of the sections so far, and the overlap for the next section. */
  datatype RawState = RawState(raw: seq<RawChunk>, overlap: string)

  function RawChunks(sections: seq<Section>, docId: string, sizes: Sizes): RawState {
    if sections == [] then RawState([], "")
    else AfterSection(RawChunks(sections[..|sections| - 1], docId, sizes), sections[|sections| - 1], docId, sizes)
  }

  /** One section: its chunks are added, and its last chunk gives the overlap for the next section. */
  function AfterSection(st: RawState, section: Section, docId: string, sizes: Sizes): RawState {
    var cs := SectionChunks(section, docId, st.overlap, sizes.target, sizes.maxSize, sizes.overlap);
    RawState(st.raw + cs, if cs != [] then LastWords(cs[|cs| - 1].text, sizes.overlap) else st.overlap)
  }

  /** The kept chunks: raw chunks of at least `minSize` words, numbered in order. */
  function Emit(raw: seq<RawChunk>, docId: string, minSize: int): seq<Chunk> {
    if raw == [] then []
    else
      var done := Emit(raw[..|raw| - 1], docId, minSize);
      var c := raw[|raw| - 1];
      var wordCount := CountWords(c.text);
      if wordCount >= minSize then done + [Chunk(ChunkId(docId, |done|), docId, |done|, c.text, wordCount, c.heading)]
      else done
  }

  /** What `chunk_document` returns. */
  function DocumentChunks(document: Document, sizes: Sizes): seq<Chunk> {
    Emit(RawChunks(Sections(document.text), document.docId, sizes).raw, document.docId, sizes.minSize)
  }

  /**
   * `chunk_document`: every section is chunked with the overlap carried
   * over from the last chunk of the section before, and the chunks that are
   * large enough are numbered and kept.
   */
  method ChunkDocument(document: Document, sizes: Sizes) returns (allChunks: seq<Chunk>)
    ensures allChunks == DocumentChunks(document, sizes)
  {
    var sections := SplitIntoSections(document.text);
    allChunks := [];
    var chunkIndex := 0;
    var previousOverlap := "";
    ghost var raw: seq<RawChunk> := [];
    for i := 0 to |sections|
      invariant RawChunks(sections[..i], document.docId, sizes) == RawState(raw, previousOverlap)
      invariant allChunks == Emit(raw, document.docId, sizes.minSize)
      invariant chunkIndex == |allChunks|
    {
      ghost var before := RawState(raw, previousOverlap);
      var sectionChunks := ChunkSection(sections[i], document.docId, previousOverlap, sizes.target, sizes.maxSize, sizes.overlap);
      allChunks, chunkIndex := KeepLarge(sectionChunks, document.docId, sizes.minSize, allChunks, chunkIndex, raw);
      raw := raw + sectionChunks;
      if sectionChunks != [] {
        previousOverlap := ExtractLastWords(sectionChunks[|sectionChunks| - 1].text, sizes.overlap);
      }
      RawChunksStep(sections, i, document.docId, sizes);
      AfterSectionIs(before, sections[i], document.docId, sizes, sectionChunks, previousOverlap);
    }
    assert sections[..|sections|] == sections;
  }

  /** The filtering loop over one section's chunks: the large enough ones are numbered on and kept. */
  method KeepLarge(sectionChunks: seq<RawChunk>, docId: string, minSize: int, chunksBefore: seq<Chunk>, indexBefore: int,
                   ghost raw: seq<RawChunk>)
    returns (allChunks: seq<Chunk>, chunkIndex: int)
    requires chunksBefore == Emit(raw, docId, minSize) && indexBefore == |chunksBefore|
    ensures allChunks == Emit(raw + sectionChunks, docId, minSize) && chunkIndex == |allChunks|
  {
    allChunks, chunkIndex := chunksBefore, indexBefore;
    assert raw + sectionChunks[..0] == raw;
    for j := 0 to |sectionChunks|
      invariant allChunks == Emit(raw + sectionChunks[..j], docId, minSize)
      invariant chunkIndex == |allChunks|
    {
      var chunkData := sectionChunks[j];
      var wordCount := CountWords(chunkData.text);
      EmitSnoc(raw + sectionChunks[..j], chunkData, docId, minSize);
      AppendSlice(raw, sectionChunks, j);
      if wordCount >= minSize {
        var chunk := Chunk(ChunkId(docId, chunkIndex), docId, chunkIndex, chunkData.text, wordCount, chunkData.heading);
        allChunks := allChunks + [chunk];
        chunkIndex := chunkIndex + 1;
      }
    }
    assert sectionChunks[..|sectionChunks|] == sectionChunks;
  }

  /**
   * Every kept chunk has at least the minimum number of words, its real word
   * count, its document's id, and index `k` with the matching id at position `k`.
   */
  lemma {:induction false} EmitNumbers(raw: seq<RawChunk>, docId: string, minSize: int)
    ensures Numbered(Emit(raw, docId, minSize), docId, minSize)
  {
    if raw != [] {
      var done := Emit(raw[..|raw| - 1], docId, minSize);
      EmitNumbers(raw[..|raw| - 1], docId, minSize);
      var c := raw[|raw| - 1];
      if CountWords(c.text) >= minSize {
        var out := done + [Chunk(ChunkId(docId, |done|), docId, |done|, c.text, CountWords(c.text), c.heading)];
        forall k | 0 <= k < |out| ensures NumberedAt(out, docId, minSize, k) {
          if k < |done| {
            assert out[k] == done[k] && NumberedAt(done, docId, minSize, k);
          }
        }
      }
    }
  }

  predicate NumberedAt(out: seq<Chunk>, docId: string, minSize: int, k: nat)
    requires k < |out|
  {
    && out[k].chunkIndex == k && out[k].id == ChunkId(docId, k) && out[k].docId == docId
    && out[k].wordCount == CountWords(out[k].text) && out[k].wordCount >= minSize
  }

  predicate Numbered(out: seq<Chunk>, docId: string, minSize: int) {
    forall k | 0 <= k < |out| :: NumberedAt(out, docId, minSize, k)
  }

  /** The texts of the raw chunks that have at least `minSize` words, in order. */
  function LargeTexts(raw: seq<RawChunk>, minSize: int): seq<string> {
    if raw == [] then []
    else LargeTexts(raw[..|raw| - 1], minSize) + (if CountWords(raw[|raw| - 1].text) >= minSize then [raw[|raw| - 1].text] else [])
  }

  function Texts(chunks: seq<Chunk>): (ts: seq<string>)
    ensures |ts| == |chunks| && forall k | 0 <= k < |chunks| :: ts[k] == chunks[k].text
  {
    seq(|chunks|, k requires 0 <= k < |chunks| => chunks[k].text)
  }

  /** The kept chunks are exactly the large enough raw chunks, in order: nothing else is dropped. */
  lemma {:induction false} EmitKeepsLarge(raw: seq<RawChunk>, docId: string, minSize: int)
    ensures Texts(Emit(raw, docId, minSize)) == LargeTexts(raw, minSize)
  {
    if raw != [] {
      EmitKeepsLarge(raw[..|raw| - 1], docId, minSize);
    }
  }

  /** The overlap for the next section comes from the last raw chunk so far, kept or not. */
  lemma {:induction false} OverlapFromLastRaw(sections: seq<Section>, docId: string, sizes: Sizes)
    ensures var st := RawChunks(sections, docId, sizes);
      st.overlap == if st.raw == [] then "" else LastWords(st.raw[|st.raw| - 1].text, sizes.overlap)
  {
    if sections != [] {
      var prefix := sections[..|sections| - 1];
      OverlapFromLastRaw(prefix, docId, sizes);
      var st := RawChunks(prefix, docId, sizes);
      var cs := SectionChunks(sections[|sections| - 1], docId, st.overlap, sizes.target, sizes.maxSize, sizes.overlap);
      assert RawChunks(sections, docId, sizes) == AfterSection(st, sections[|sections| - 1], docId, sizes);
      if cs != [] {
        assert (st.raw + cs)[|st.raw + cs| - 1] == cs[|cs| - 1];
      } else {
        assert st.raw + cs == st.raw;
      }
    }
  }

  lemma AppendSlice<T>(a: seq<T>, b: seq<T>, j: nat)
    requires j < |b|
    ensures a + b[..j + 1] == (a + b[..j]) + [b[j]]
  {
  }

  lemma EmitSnoc(raw: seq<RawChunk>, c: RawChunk, docId: string, minSize: int)
    ensures var done := Emit(raw, docId, minSize);
      Emit(raw + [c], docId, minSize)
      == done + (if CountWords(c.text) >= minSize then [Chunk(ChunkId(docId, |done|), docId, |done|, c.text, CountWords(c.text), c.heading)] else [])
  {
    assert (raw + [c])[..|raw|] == raw;
  }

  lemma AfterSectionIs(st: RawState, section: Section, docId: string, sizes: Sizes, cs: seq<RawChunk>, overlap: string)
    requires cs == SectionChunks(section, docId, st.overlap, sizes.target, sizes.maxSize, sizes.overlap)
    requires overlap == if cs != [] then LastWords(cs[|cs| - 1].text, sizes.overlap) else st.overlap
    ensures AfterSection(st, section, docId, sizes) == RawState(st.raw + cs, overlap)
  {
  }

  lemma RawChunksStep(sections: seq<Section>, i: nat, docId: string, sizes: Sizes)
    requires i < |sections|
    ensures RawChunks(sections[..i + 1], docId, sizes) == AfterSection(RawChunks(sections[..i], docId, sizes), sections[i], docId, sizes)
  {
    assert sections[..i + 1][..i] == sections[..i];
  }

  /** The raw chunks are the chunks of each section in turn. */
  lemma RawChunksSnoc(sections: seq<Section>, s: Section, docId: string, sizes: Sizes)
    ensures var st := RawChunks(sections, docId, sizes);
      RawChunks(sections + [s], docId, sizes).raw == st.raw + SectionChunks(s, docId, st.overlap, sizes.target, sizes.maxSize, sizes.overlap)
  {
    assert (sections + [s])[..|sections|] == sections;
  }

  /** The chunks of a document: indices 0..k-1 without gaps, distinct ids, none below the minimum size. */
  lemma DocumentChunksNumbered(document: Document, sizes: Sizes)
    ensures var out := DocumentChunks(document, sizes);
      && (forall k | 0 <= k < |out| :: out[k].chunkIndex == k && out[k].wordCount >= sizes.minSize && out[k].docId == document.docId)
      && (forall i, j | 0 <= i < j < |out| :: out[i].id != out[j].id)
  {
    var out := DocumentChunks(document, sizes);
    EmitNumbers(RawChunks(Sections(document.text), document.docId, sizes).raw, document.docId, sizes.minSize);
    forall k | 0 <= k < |out| ensures out[k].chunkIndex == k && out[k].wordCount >= sizes.minSize && out[k].docId == document.docId {
      assert NumberedAt(out, document.docId, sizes.minSize, k);
    }
    forall i, j | 0 <= i < j < |out| ensures out[i].id != out[j].id {
      assert NumberedAt(out, document.docId, sizes.minSize, i) && NumberedAt(out, document.docId, sizes.minSize, j);
      ChunkIdsDiffer(document.docId, i, j);
    }
  }
}
