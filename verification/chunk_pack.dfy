/**
 * Chunking one section: a section within the maximum size is one chunk;
 * a larger one is split into paragraphs at blank lines, which are packed
 * greedily into chunks near the target size, each later chunk opening with
 * the overlap taken from the chunk before it.
 */
module ChunkPack {
  import opened Wrappers
  import opened Text
  import opened ChunkWords
  import opened ChunkOverlap
  import opened ChunkSections

  // Paragraphs

  /** Finished paragraphs, and the non-blank lines of the paragraph still open. */
  datatype LineGroups = LineGroups(done: seq<string>, current: seq<string>)

  /** A paragraph as `_split_by_paragraphs` keeps it: stripped and non-empty. */
  predicate GoodParagraph(p: string) {
    p != [] && IsStripped(p)
  }

  /** Closes the open paragraph, if there is one. */
  function Flush(current: seq<string>): seq<string> {
    if current == [] then [] else [Strip(Join("\n", current))]
  }

  lemma FlushGood(current: seq<string>)
    requires forall l | l in current :: !AllSpace(l)
    ensures forall p | p in Flush(current) :: GoodParagraph(p)
  {
    if current != [] {
      JoinNotAllSpace("\n", current, 0);
    }
  }

  /** Groups lines into runs of non-blank lines; a blank line closes the open run. */
  function GroupLines(lines: seq<string>): (g: LineGroups)
    ensures forall p | p in g.done :: GoodParagraph(p)
    ensures forall l | l in g.current :: !AllSpace(l)
  {
    if lines == [] then LineGroups([], [])
    else
      var g := GroupLines(lines[..|lines| - 1]);
      var line := lines[|lines| - 1];
      if AllSpace(line) then
        FlushGood(g.current);
        LineGroups(g.done + Flush(g.current), [])
      else LineGroups(g.done, g.current + [line])
  }

  /**
   * `_split_by_paragraphs`: the text between blank lines (lines holding only
   * whitespace), stripped, with empty pieces dropped.
   */
  function Paragraphs(text: string): (ps: seq<string>)
    ensures forall p | p in ps :: GoodParagraph(p)
  {
    var g := GroupLines(Split(text, '\n'));
    FlushGood(g.current);
    g.done + Flush(g.current)
  }

  /** The total word count of a list of texts. */
  function SumWords(ts: seq<string>): nat {
    if ts == [] then 0 else SumWords(ts[..|ts| - 1]) + CountWords(ts[|ts| - 1])
  }

  lemma SumWordsAppend(a: seq<string>, b: seq<string>)
    ensures SumWords(a + b) == SumWords(a) + SumWords(b)
    decreases |b|
  {
    if b != [] {
      assert (a + b)[..|a + b| - 1] == a + b[..|b| - 1];
      SumWordsAppend(a, b[..|b| - 1]);
    } else {
      assert a + b == a;
    }
  }

  /** Lines joined back with line breaks hold the words of the lines. */
  lemma {:induction false} JoinedLineWords(lines: seq<string>)
    ensures CountWords(Join("\n", lines)) == SumWords(lines)
    decreases |lines|
  {
    if |lines| > 1 {
      var init := lines[..|lines| - 1];
      JoinedLineWords(init);
      JoinSnoc("\n", init, lines[|lines| - 1]);
      assert init + [lines[|lines| - 1]] == lines;
      assert CountWords("\n") == 0;
      CountWordsAround(Join("\n", init), "\n", lines[|lines| - 1]);
    } else if |lines| == 1 {
      assert lines[..0] == [];
    }
  }

  /** Grouping lines loses no word: blank lines have none. */
  lemma {:induction false} GroupLinesWords(lines: seq<string>)
    ensures var g := GroupLines(lines); SumWords(g.done) + SumWords(g.current) == SumWords(lines)
  {
    if lines != [] {
      var init := lines[..|lines| - 1];
      var line := lines[|lines| - 1];
      GroupLinesWords(init);
      var g := GroupLines(init);
      if AllSpace(line) {
        BlankHasNoWords(line);
        FlushWords(g.current);
        SumWordsAppend(g.done, Flush(g.current));
      } else {
        SumWordsAppend(g.current, [line]);
        assert [line][..0] == [];
      }
    }
  }

  lemma FlushWords(current: seq<string>)
    ensures SumWords(Flush(current)) == SumWords(current)
  {
    if current != [] {
      StripKeepsWords(Join("\n", current));
      JoinedLineWords(current);
      assert [Strip(Join("\n", current))][..0] == [];
    }
  }

  /** Every word of the text is in exactly one paragraph. */
  lemma ParagraphsKeepWords(text: string)
    ensures SumWords(Paragraphs(text)) == CountWords(text)
  {
    var lines := Split(text, '\n');
    var g := GroupLines(lines);
    GroupLinesWords(lines);
    FlushWords(g.current);
    SumWordsAppend(g.done, Flush(g.current));
    JoinSplit(text, '\n');
    JoinedLineWords(lines);
  }

  // Greedy packing

  /** The separator chunk pieces are joined with. */
  const ParagraphSep: string := "\n\n"

  /** The pieces an overlap contributes to a chunk: none when it is empty. */
  function Lead(overlap: string): (l: seq<string>)
    ensures |l| <= 1
  {
    if overlap != "" then [overlap] else []
  }

  /** The words an overlap contributes to a chunk. */
  function LeadSize(overlap: string): nat {
    if overlap != "" then CountWords(overlap) else 0
  }

  /**
   * The packing loop's state: the flushed chunk texts, the pieces of the open
   * chunk and their word count; besides, for every flushed chunk and for the
   * open one, the overlap it opened with (`leads`, `lead`) and the paragraphs
   * it took (`groups`, `group`).
   */
  datatype Packing = Packing(
    chunks: seq<string>,
    current: seq<string>,
    size: int,
    groups: seq<seq<string>>,
    group: seq<string>,
    leads: seq<seq<string>>,
    lead: seq<string>)

  function StartPacking(overlap: string): Packing {
    Packing([], Lead(overlap), LeadSize(overlap), [], [], [], Lead(overlap))
  }

  /**
   * One paragraph: when it would take the open chunk over the target and the
   * open chunk is not empty, the open chunk is flushed and a new one opens
   * with the flushed chunk's overlap and the paragraph; otherwise the
   * paragraph joins the open chunk.
   */
  function PackStep(p: Packing, para: string, target: int, overlapSize: int): Packing {
    var paraSize := CountWords(para);
    if p.size + paraSize > target && p.current != [] then
      var text := Join(ParagraphSep, p.current);
      var overlap := LastWords(text, overlapSize);
      Packing(p.chunks + [text], Lead(overlap) + [para], LeadSize(overlap) + paraSize,
        p.groups + [p.group], [para], p.leads + [p.lead], Lead(overlap))
    else
      Packing(p.chunks, p.current + [para], p.size + paraSize, p.groups, p.group + [para], p.leads, p.lead)
  }

  function Pack(paras: seq<string>, overlap: string, target: int, overlapSize: int): Packing {
    if paras == [] then StartPacking(overlap)
    else PackStep(Pack(paras[..|paras| - 1], overlap, target, overlapSize), paras[|paras| - 1], target, overlapSize)
  }

  /** The chunk texts once the open chunk is flushed too. */
  function PackedTexts(p: Packing): seq<string> {
    p.chunks + (if p.current != [] then [Join(ParagraphSep, p.current)] else [])
  }

  function PackedGroups(p: Packing): seq<seq<string>> {
    p.groups + (if p.current != [] then [p.group] else [])
  }

  function PackedLeads(p: Packing): seq<seq<string>> {
    p.leads + (if p.current != [] then [p.lead] else [])
  }

  /** The paragraphs of a list of groups, in order. */
  function Flatten(gs: seq<seq<string>>): seq<string> {
    if gs == [] then [] else Flatten(gs[..|gs| - 1]) + gs[|gs| - 1]
  }

  /** Every chunk is its overlap (if any) followed by its paragraphs. */
  predicate ShapeOk(p: Packing) {
    && |p.chunks| == |p.groups| == |p.leads|
    && p.current == p.lead + p.group
    && |p.lead| <= 1
    && (forall k | 0 <= k < |p.chunks| :: |p.leads[k]| <= 1)
    && (forall k | 0 <= k < |p.chunks| :: p.chunks[k] == Join(ParagraphSep, p.leads[k] + p.groups[k]))
  }

  lemma ShapeStep(p: Packing, para: string, target: int, overlapSize: int)
    requires ShapeOk(p)
    ensures ShapeOk(PackStep(p, para, target, overlapSize))
  {
  }

  lemma {:induction false} PackShape(paras: seq<string>, overlap: string, target: int, overlapSize: int)
    ensures ShapeOk(Pack(paras, overlap, target, overlapSize))
  {
    if paras != [] {
      PackShape(paras[..|paras| - 1], overlap, target, overlapSize);
      ShapeStep(Pack(paras[..|paras| - 1], overlap, target, overlapSize), paras[|paras| - 1], target, overlapSize);
    }
  }

  /** The running size is the word count of the open chunk. */
  predicate SizeOk(p: Packing) {
    p.size == CountWords(Join(ParagraphSep, p.current))
  }

  lemma SeparatorHasNoWords()
    ensures CountWords(ParagraphSep) == 0
  {
    assert ParagraphSep[1..] == "\n" && ParagraphSep[1..][1..] == [];
  }

  /** Joining one more piece adds its word count. */
  lemma JoinedSize(pieces: seq<string>, x: string)
    ensures CountWords(Join(ParagraphSep, pieces + [x])) == CountWords(Join(ParagraphSep, pieces)) + CountWords(x)
  {
    if pieces == [] {
      assert pieces + [x] == [x];
    } else {
      JoinSnoc(ParagraphSep, pieces, x);
      SeparatorHasNoWords();
      CountWordsAround(Join(ParagraphSep, pieces), ParagraphSep, x);
    }
  }

  lemma SizeStep(p: Packing, para: string, target: int, overlapSize: int)
    requires SizeOk(p)
    ensures SizeOk(PackStep(p, para, target, overlapSize))
  {
    var q := PackStep(p, para, target, overlapSize);
    if p.size + CountWords(para) > target && p.current != [] {
      var overlap := LastWords(Join(ParagraphSep, p.current), overlapSize);
      JoinedSize(Lead(overlap), para);
      assert Join(ParagraphSep, Lead(overlap)) == overlap || (overlap == "" && Lead(overlap) == []);
    } else {
      JoinedSize(p.current, para);
    }
  }

  lemma {:induction false} PackSize(paras: seq<string>, overlap: string, target: int, overlapSize: int)
    ensures SizeOk(Pack(paras, overlap, target, overlapSize))
  {
    if paras == [] {
      assert Join(ParagraphSep, Lead(overlap)) == overlap || (overlap == "" && Lead(overlap) == []);
    } else {
      PackSize(paras[..|paras| - 1], overlap, target, overlapSize);
      SizeStep(Pack(paras[..|paras| - 1], overlap, target, overlapSize), paras[|paras| - 1], target, overlapSize);
    }
  }

  lemma FlattenSnoc(gs: seq<seq<string>>, g: seq<string>)
    ensures Flatten(gs + [g]) == Flatten(gs) + g
  {
    assert (gs + [g])[..|gs|] == gs;
  }

  /** Every paragraph so far is in exactly one chunk, in order. */
  lemma {:induction false} PackCovers(paras: seq<string>, overlap: string, target: int, overlapSize: int)
    ensures var p := Pack(paras, overlap, target, overlapSize); Flatten(p.groups) + p.group == paras
  {
    if paras != [] {
      PackCovers(paras[..|paras| - 1], overlap, target, overlapSize);
      CoversStep(paras, overlap, target, overlapSize);
    }
  }

  /** The last paragraph goes after every paragraph taken before it. */
  lemma CoversStep(paras: seq<string>, overlap: string, target: int, overlapSize: int)
    requires paras != []
    requires var p := Pack(paras[..|paras| - 1], overlap, target, overlapSize); Flatten(p.groups) + p.group == paras[..|paras| - 1]
    ensures var q := Pack(paras, overlap, target, overlapSize); Flatten(q.groups) + q.group == paras
  {
    var prefix := paras[..|paras| - 1];
    var para := paras[|paras| - 1];
    var p := Pack(prefix, overlap, target, overlapSize);
    var q := PackStep(p, para, target, overlapSize);
    assert Pack(paras, overlap, target, overlapSize).groups == q.groups;
    assert Pack(paras, overlap, target, overlapSize).group == q.group;
    if p.size + CountWords(para) > target && p.current != [] {
      FlattenSnoc(p.groups, p.group);
    }
    InitThenLast(paras);
  }

  lemma InitThenLast(s: seq<string>)
    requires s != []
    ensures s[..|s| - 1] + [s[|s| - 1]] == s
  {
  }

  /** The pieces a flushed chunk passes on to the next chunk: its overlap, if any. */
  function NextLead(overlapSize: int): string -> seq<string> {
    t => Lead(LastWords(t, overlapSize))
  }

  /**
   * The first chunk opens with the section's overlap; every later one with
   * what `next` makes of the chunk before it.
   */
  predicate OverlapOk(p: Packing, overlap: string, next: string -> seq<string>)
    requires |p.leads| == |p.chunks|
  {
    && (p.chunks != [] ==> p.leads[0] == Lead(overlap))
    && (forall k | 1 <= k < |p.chunks| :: p.leads[k] == next(p.chunks[k - 1]))
    && p.lead == (if p.chunks == [] then Lead(overlap) else next(p.chunks[|p.chunks| - 1]))
  }

  lemma OverlapStep(p: Packing, para: string, overlap: string, target: int, overlapSize: int)
    requires ShapeOk(p) && OverlapOk(p, overlap, NextLead(overlapSize))
    ensures ShapeOk(PackStep(p, para, target, overlapSize))
    ensures OverlapOk(PackStep(p, para, target, overlapSize), overlap, NextLead(overlapSize))
  {
    ShapeStep(p, para, target, overlapSize);
    if p.size + CountWords(para) > target && p.current != [] {
      var text := Join(ParagraphSep, p.current);
      var q := PackStep(p, para, target, overlapSize);
      assert q.lead == NextLead(overlapSize)(text);
      OverlapAfterFlush(p, q, text, overlap, NextLead(overlapSize));
    }
  }

  /** Flushing records the open chunk's overlap and opens the next chunk with that chunk's own overlap. */
  lemma OverlapAfterFlush(p: Packing, q: Packing, text: string, overlap: string, next: string -> seq<string>)
    requires |p.leads| == |p.chunks| && OverlapOk(p, overlap, next)
    requires q.chunks == p.chunks + [text] && q.leads == p.leads + [p.lead]
    requires q.lead == next(text)
    ensures OverlapOk(q, overlap, next)
  {
    var n := |p.chunks|;
    assert |q.chunks| == n + 1 && q.chunks[n] == text;
    forall k | 1 <= k <= n ensures q.leads[k] == next(q.chunks[k - 1]) {
      assert q.chunks[k - 1] == p.chunks[k - 1];
      if k < n {
        assert q.leads[k] == p.leads[k];
      } else {
        assert q.leads[k] == p.lead;
      }
    }
    if n > 0 {
      assert q.leads[0] == p.leads[0];
    }
  }

  lemma {:induction false} PackOverlap(paras: seq<string>, overlap: string, target: int, overlapSize: int)
    ensures ShapeOk(Pack(paras, overlap, target, overlapSize))
    ensures OverlapOk(Pack(paras, overlap, target, overlapSize), overlap, NextLead(overlapSize))
  {
    if paras != [] {
      PackOverlap(paras[..|paras| - 1], overlap, target, overlapSize);
      OverlapStep(Pack(paras[..|paras| - 1], overlap, target, overlapSize), paras[|paras| - 1], overlap, target, overlapSize);
    }
  }

  /** The paragraphs of the chunk after chunk `k`. */
  function NextGroup(p: Packing, k: nat): seq<string>
    requires k < |p.groups|
  {
    if k + 1 < |p.groups| then p.groups[k + 1] else p.group
  }

  /** Each flushed chunk was flushed because its next paragraph would have taken it over the target. */
  predicate FlushOk(p: Packing, target: int)
    requires |p.groups| == |p.chunks|
  {
    forall k | 0 <= k < |p.chunks| :: NextGroup(p, k) != [] && CountWords(p.chunks[k]) + CountWords(NextGroup(p, k)[0]) > target
  }

  lemma FlushStep(p: Packing, para: string, target: int, overlapSize: int)
    requires ShapeOk(p) && SizeOk(p) && FlushOk(p, target)
    ensures ShapeOk(PackStep(p, para, target, overlapSize))
    ensures FlushOk(PackStep(p, para, target, overlapSize), target)
  {
    ShapeStep(p, para, target, overlapSize);
    var q := PackStep(p, para, target, overlapSize);
    forall k | 0 <= k < |q.chunks|
      ensures NextGroup(q, k) != [] && CountWords(q.chunks[k]) + CountWords(NextGroup(q, k)[0]) > target
    {
      if k < |p.chunks| {
        assert NextGroup(p, k) != [];
        if k + 1 < |p.chunks| {
          assert NextGroup(q, k) == NextGroup(p, k);
        } else {
          assert NextGroup(q, k)[0] == NextGroup(p, k)[0];
        }
      }
    }
  }

  lemma {:induction false} PackFlush(paras: seq<string>, overlap: string, target: int, overlapSize: int)
    ensures ShapeOk(Pack(paras, overlap, target, overlapSize))
    ensures FlushOk(Pack(paras, overlap, target, overlapSize), target)
  {
    if paras != [] {
      var prefix := paras[..|paras| - 1];
      PackFlush(prefix, overlap, target, overlapSize);
      PackSize(prefix, overlap, target, overlapSize);
      FlushStep(Pack(prefix, overlap, target, overlapSize), paras[|paras| - 1], target, overlapSize);
    }
  }

  /** The open chunk is never empty once a paragraph has been seen. */
  lemma PackOpenChunk(paras: seq<string>, overlap: string, target: int, overlapSize: int)
    ensures paras != [] || overlap != "" ==> Pack(paras, overlap, target, overlapSize).current != []
  {
  }

  /**
   * After the final flush every paragraph is in exactly one chunk, in order,
   * and every chunk is its overlap (at most one piece) followed by its
   * paragraphs, joined with blank lines.
   */
  lemma PackedLayout(paras: seq<string>, overlap: string, target: int, overlapSize: int)
    ensures var p := Pack(paras, overlap, target, overlapSize);
      var texts, gs, ls := PackedTexts(p), PackedGroups(p), PackedLeads(p);
      && |texts| == |gs| == |ls|
      && Flatten(gs) == paras
      && (forall k | 0 <= k < |texts| :: |ls[k]| <= 1 && texts[k] == Join(ParagraphSep, ls[k] + gs[k]))
  {
    PackShape(paras, overlap, target, overlapSize);
    PackCovers(paras, overlap, target, overlapSize);
    PackedLayoutOf(Pack(paras, overlap, target, overlapSize), paras);
  }

  lemma PackedLayoutOf(p: Packing, paras: seq<string>)
    requires ShapeOk(p) && Flatten(p.groups) + p.group == paras
    ensures var texts, gs, ls := PackedTexts(p), PackedGroups(p), PackedLeads(p);
      && |texts| == |gs| == |ls|
      && Flatten(gs) == paras
      && (forall k | 0 <= k < |texts| :: |ls[k]| <= 1 && texts[k] == Join(ParagraphSep, ls[k] + gs[k]))
  {
    var texts, gs, ls := PackedTexts(p), PackedGroups(p), PackedLeads(p);
    var n := |p.chunks|;
    if p.current != [] {
      assert gs == p.groups + [p.group];
      FlattenSnoc(p.groups, p.group);
    } else {
      assert gs == p.groups && p.group == [];
      AppendNothing(Flatten(p.groups));
    }
    forall k | 0 <= k < |texts| ensures |ls[k]| <= 1 && texts[k] == Join(ParagraphSep, ls[k] + gs[k]) {
      if k < n {
        assert texts[k] == p.chunks[k] && ls[k] == p.leads[k] && gs[k] == p.groups[k];
      } else {
        assert texts[k] == Join(ParagraphSep, p.current) && ls[k] == p.lead && gs[k] == p.group;
      }
    }
  }

  lemma AppendNothing(s: seq<string>)
    ensures s + [] == s
  {
  }

  /** The first chunk opens with the section's overlap, every later chunk with the overlap of the chunk before it. */
  lemma PackedOverlap(paras: seq<string>, overlap: string, target: int, overlapSize: int)
    ensures var p := Pack(paras, overlap, target, overlapSize);
      var texts, ls := PackedTexts(p), PackedLeads(p);
      && |texts| == |ls|
      && (texts != [] ==> ls[0] == Lead(overlap))
      && (forall k | 1 <= k < |texts| :: ls[k] == Lead(LastWords(texts[k - 1], overlapSize)))
  {
    var p := Pack(paras, overlap, target, overlapSize);
    PackOverlap(paras, overlap, target, overlapSize);
    PackedOverlapOf(p, overlap, NextLead(overlapSize));
    var texts, ls := PackedTexts(p), PackedLeads(p);
    forall k | 1 <= k < |texts| ensures ls[k] == Lead(LastWords(texts[k - 1], overlapSize)) {
      assert ls[k] == NextLead(overlapSize)(texts[k - 1]);
    }
  }

  lemma PackedOverlapOf(p: Packing, overlap: string, next: string -> seq<string>)
    requires |p.leads| == |p.chunks| && OverlapOk(p, overlap, next)
    ensures var texts, ls := PackedTexts(p), PackedLeads(p);
      && |texts| == |ls|
      && (texts != [] ==> ls[0] == Lead(overlap))
      && (forall k | 1 <= k < |texts| :: ls[k] == next(texts[k - 1]))
  {
    var texts, ls := PackedTexts(p), PackedLeads(p);
    var n := |p.chunks|;
    forall k | 1 <= k < |texts| ensures ls[k] == next(texts[k - 1]) {
      assert texts[k - 1] == p.chunks[k - 1];
      if k < n {
        assert ls[k] == p.leads[k];
      } else {
        assert ls[k] == p.lead;
      }
    }
    if n > 0 {
      assert ls[0] == p.leads[0];
    }
  }

  /**
   * Every chunk but the last was flushed because the first paragraph of the
   * next chunk would have taken it over the target; so every chunk but the
   * first holds at least one paragraph.
   */
  predicate FlushedGreedily(texts: seq<string>, gs: seq<seq<string>>, target: int) {
    && |texts| == |gs|
    && (forall k | 0 <= k < |texts| - 1 :: gs[k + 1] != [] && CountWords(texts[k]) + CountWords(gs[k + 1][0]) > target)
  }

  lemma PackedFlush(paras: seq<string>, overlap: string, target: int, overlapSize: int)
    ensures var p := Pack(paras, overlap, target, overlapSize); FlushedGreedily(PackedTexts(p), PackedGroups(p), target)
  {
    var p := Pack(paras, overlap, target, overlapSize);
    PackFlush(paras, overlap, target, overlapSize);
    if p.current != [] {
      FlushedOpen(p, target);
    } else {
      ClosedMeansEmpty(p, target);
    }
  }

  lemma FlushedOpen(p: Packing, target: int)
    requires ShapeOk(p) && FlushOk(p, target) && p.current != []
    ensures FlushedGreedily(PackedTexts(p), PackedGroups(p), target)
  {
    var texts, gs := PackedTexts(p), PackedGroups(p);
    assert texts == p.chunks + [Join(ParagraphSep, p.current)] && gs == p.groups + [p.group];
    forall k | 0 <= k < |texts| - 1 ensures gs[k + 1] != [] && CountWords(texts[k]) + CountWords(gs[k + 1][0]) > target {
      assert NextGroup(p, k) == gs[k + 1] && texts[k] == p.chunks[k];
    }
  }

  /** With no open chunk there is no flushed chunk either: every flush opens a chunk. */
  lemma ClosedMeansEmpty(p: Packing, target: int)
    requires ShapeOk(p) && FlushOk(p, target) && p.current == []
    ensures p.chunks == []
  {
    assert p.group == [];
    assert p.chunks != [] ==> NextGroup(p, |p.chunks| - 1) == p.group;
  }

  // The section

  datatype RawChunk = RawChunk(text: string, heading: Option<string>, breadcrumb: seq<string>, docId: string)

  /** The chunk texts `_chunk_section` produces for a section's content. */
  function SectionTexts(content: string, overlap: string, target: int, maxSize: int, overlapSize: int): seq<string> {
    if CountWords(content) <= maxSize then [if overlap != "" then Strip(overlap + "\n\n" + content) else content]
    else PackedTexts(Pack(Paragraphs(content), overlap, target, overlapSize))
  }

  /** Texts labelled with the section's heading, breadcrumb and document. */
  function ChunksOf(texts: seq<string>, section: Section, docId: string): (cs: seq<RawChunk>)
    ensures |cs| == |texts|
    ensures forall k | 0 <= k < |texts| :: cs[k] == RawChunk(texts[k], section.heading, section.breadcrumb, docId)
  {
    seq(|texts|, k requires 0 <= k < |texts| => RawChunk(texts[k], section.heading, section.breadcrumb, docId))
  }

  function SectionChunks(section: Section, docId: string, overlap: string, target: int, maxSize: int, overlapSize: int): seq<RawChunk> {
    ChunksOf(SectionTexts(section.content, overlap, target, maxSize, overlapSize), section, docId)
  }

  lemma ChunksOfSnoc(texts: seq<string>, t: string, section: Section, docId: string)
    ensures ChunksOf(texts + [t], section, docId) == ChunksOf(texts, section, docId) + [RawChunk(t, section.heading, section.breadcrumb, docId)]
  {
  }

  /**
   * `_chunk_section`: one chunk for a section within the maximum size,
   * otherwise the greedy packing loop over its paragraphs.
   */
  method ChunkSection(section: Section, docId: string, previousOverlap: string, targetChunkSize: int, maxChunkSize: int, overlapSize: int)
    returns (chunks: seq<RawChunk>)
    ensures chunks == SectionChunks(section, docId, previousOverlap, targetChunkSize, maxChunkSize, overlapSize)
  {
    var content := section.content;
    var wordCount := CountWords(content);
    chunks := [];
    var overlapText := previousOverlap;
    if wordCount <= maxChunkSize {
      var chunkText := if overlapText != "" then Strip(overlapText + "\n\n" + content) else content;
      chunks := [RawChunk(chunkText, section.heading, section.breadcrumb, docId)];
      return;
    }
    var paragraphs := Paragraphs(content);
    var currentChunk: seq<string> := [];
    var currentSize := 0;
    if overlapText != "" {
      currentChunk := [overlapText];
      currentSize := CountWords(overlapText);
    }
    ghost var texts: seq<string> := [];
    for i := 0 to |paragraphs|
      invariant texts == Pack(paragraphs[..i], previousOverlap, targetChunkSize, overlapSize).chunks
      invariant currentChunk == Pack(paragraphs[..i], previousOverlap, targetChunkSize, overlapSize).current
      invariant currentSize == Pack(paragraphs[..i], previousOverlap, targetChunkSize, overlapSize).size
      invariant chunks == ChunksOf(texts, section, docId)
    {
      var para := paragraphs[i];
      var paraSize := CountWords(para);
      assert paragraphs[..i + 1][..i] == paragraphs[..i];
      if currentSize + paraSize > targetChunkSize && currentChunk != [] {
        var chunkText := Join("\n\n", currentChunk);
        ChunksOfSnoc(texts, chunkText, section, docId);
        chunks := chunks + [RawChunk(chunkText, section.heading, section.breadcrumb, docId)];
        texts := texts + [chunkText];
        overlapText := ExtractLastWords(chunkText, overlapSize);
        currentChunk := if overlapText != "" then [overlapText, para] else [para];
        currentSize := if overlapText != "" then CountWords(overlapText) + paraSize else paraSize;
      } else {
        currentChunk := currentChunk + [para];
        currentSize := currentSize + paraSize;
      }
    }
    assert paragraphs[..|paragraphs|] == paragraphs;
    if currentChunk != [] {
      ChunksOfSnoc(texts, Join("\n\n", currentChunk), section, docId);
      chunks := chunks + [RawChunk(Join("\n\n", currentChunk), section.heading, section.breadcrumb, docId)];
    }
  }

  /** A section within the maximum size is one chunk: the overlap and the content, or the content alone. */
  lemma SmallSectionOneChunk(content: string, overlap: string, target: int, maxSize: int, overlapSize: int)
    requires CountWords(content) <= maxSize
    ensures SectionTexts(content, overlap, target, maxSize, overlapSize)
      == [if overlap != "" then Strip(overlap + "\n\n" + content) else content]
  {
  }

  /** Every section yields at least one chunk when the maximum size is not negative. */
  lemma SectionHasChunks(content: string, overlap: string, target: int, maxSize: int, overlapSize: int)
    requires maxSize >= 0
    ensures SectionTexts(content, overlap, target, maxSize, overlapSize) != []
  {
    if CountWords(content) > maxSize {
      ParagraphsKeepWords(content);
      assert Paragraphs(content) != [];
      PackOpenChunk(Paragraphs(content), overlap, target, overlapSize);
    }
  }
}
