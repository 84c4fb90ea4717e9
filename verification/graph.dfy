/**
 * The question-answering workflow: route, then either answer directly or run
 * the retrieval loop query_rewrite -> retrieve -> grade, which goes back to
 * query_rewrite while grading kept nothing and the iteration budget allows,
 * and otherwise ends at generate. Every node returns the state with its own
 * fields replaced and one reasoning step appended.
 *
 * Language-model replies are inputs: a reply is either text or some other
 * content (`NonText`). Retrieval for one query is a function from the query
 * to the retriever's ranked results.
 */
module Graph {
  import opened Wrappers
  import opened Text
  import opened Seqs
  import opened AgentModels

  datatype Reply = Text(text: string) | NonText

  datatype DocMeta = DocMeta(
    chunkId: string,
    docId: string,
    chunkIndex: Option<int>,
    heading: Option<string>,
    wordCount: int,
    similarity: real)

  datatype Document = Document(pageContent: string, metadata: DocMeta)

  function DocChunkId(d: Document): string { d.metadata.chunkId }
  function DocSimilarity(d: Document): real { d.metadata.similarity }

  datatype AgentState = AgentState(
    question: string,
    needsRetrieval: bool,
    rewrittenQueries: seq<string>,
    documents: seq<Document>,
    relevantDocuments: seq<Document>,
    finalAnswer: string,
    reasoningSteps: seq<string>,
    iterationCount: int,
    maxIterations: Option<int>)

  datatype Node = Route | QueryRewrite | Retrieve | Grade | Generate | Direct

  /** The state a run starts from: nothing retrieved yet, zero iterations, a budget of two. */
  function CreateInitialState(question: string): (s: AgentState)
    ensures s.question == question && !s.needsRetrieval
    ensures s.iterationCount == 0 && s.maxIterations == Some(2)
    ensures s.rewrittenQueries == [] && s.documents == [] && s.relevantDocuments == []
    ensures s.finalAnswer == "" && s.reasoningSteps == []
  {
    AgentState(question, false, [], [], [], "", [], 0, Some(2))
  }

  // ---------------------------------------------------------------- route

  /** The reply stripped and upper-cased, or no decision when the reply is not text. */
  function RouteDecision(reply: Reply): Option<string> {
    if reply.Text? then Some(Upper(Strip(reply.text))) else None
  }

  function RouteStep(decision: Option<string>): string {
    "[ROUTE] Decision: " + (if decision.Some? then decision.value else "None")
    + ". Path: " + (if decision == Some("RAG") then "RAG" else "Direct (greeting)")
  }

  function RouteNode(s: AgentState, reply: Reply): (t: AgentState)
    ensures t.needsRetrieval <==> reply.Text? && Upper(Strip(reply.text)) == "RAG"
    ensures t == s.(needsRetrieval := t.needsRetrieval, reasoningSteps := s.reasoningSteps + [RouteStep(RouteDecision(reply))])
  {
    var decision := RouteDecision(reply);
    s.(needsRetrieval := decision == Some("RAG"), reasoningSteps := s.reasoningSteps + [RouteStep(decision)])
  }

  /** Surrounding whitespace and letter case do not matter to the route decision. */
  lemma RouteIgnoresSpaceAndCase(s: AgentState)
    ensures RouteNode(s, Text(" rag\n")).needsRetrieval
  {
    var r := " rag\n";
    assert SkipSpaces(r, 1) == 1;
    assert SkipSpaces(r, 0) == 1;
    assert SkipSpacesBack(r, 1, 4) == 4;
    assert SkipSpacesBack(r, 1, 5) == 4;
    assert Strip(r) == "rag";
    assert Upper("rag") == "RAG";
  }

  /** Anything else after stripping, or a reply that is not text, takes the direct path. */
  lemma RouteOtherwiseDirect(s: AgentState)
    ensures !RouteNode(s, Text("RAG.")).needsRetrieval
    ensures !RouteNode(s, NonText).needsRetrieval
  {
    StripOfStripped("RAG.");
    assert |Upper("RAG.")| == 4;
  }

  function ShouldRetrieve(s: AgentState): (n: Node)
    ensures n == QueryRewrite || n == Direct
    ensures n == QueryRewrite <==> s.needsRetrieval
  {
    if s.needsRetrieval then QueryRewrite else Direct
  }

  // ---------------------------------------------------------------- query rewrite

  /** The non-blank lines of a reply, each stripped, in order. */
  function NonBlankLines(lines: seq<string>): (qs: seq<string>)
    ensures |qs| <= |lines|
    ensures forall q | q in qs :: q != [] && IsStripped(q)
    ensures forall q | q in qs :: exists l | l in lines :: q == Strip(l)
  {
    if lines == [] then []
    else
      var rest := NonBlankLines(lines[..|lines| - 1]);
      var q := Strip(lines[|lines| - 1]);
      assert forall l | l in lines[..|lines| - 1] :: l in lines;
      if q == [] then rest else rest + [q]
  }

  /** The search queries of a rewrite reply: its non-blank lines, stripped; none for a non-text reply. */
  function ParseQueries(reply: Reply): (qs: seq<string>)
    ensures forall q | q in qs :: q != [] && IsStripped(q) && '\n' !in q
    ensures reply.NonText? ==> qs == []
  {
    if reply.NonText? then []
    else
      var lines := Split(Strip(reply.text), '\n');
      var qs := NonBlankLines(lines);
      assert forall q | q in qs :: '\n' !in q by {
        forall q | q in qs ensures '\n' !in q {
          var l :| l in lines && q == Strip(l);
          StripIsSlice(l);
        }
      }
      qs
  }

  /** The characters of `Strip(s)` all come from `s`. */
  lemma StripIsSlice(s: string)
    ensures forall c | c in Strip(s) :: c in s
  {
    var b := SkipSpaces(s, 0);
    var e := SkipSpacesBack(s, b, |s|);
    assert Strip(s) == s[b..e];
    forall c | c in s[b..e] ensures c in s {
      var k :| 0 <= k < e - b && s[b..e][k] == c;
      assert s[b + k] == c;
    }
  }

  function Quoted(qs: seq<string>): seq<string> {
    seq(|qs|, i requires 0 <= i < |qs| => StrRepr(qs[i]))
  }

  /** `repr` of a list of strings. */
  function ListText(qs: seq<string>): string {
    "[" + Join(", ", Quoted(qs)) + "]"
  }

  function RewriteStep(queries: seq<string>): string {
    "[QUERY_REWRITE] Generated " + NatToString(|queries|) + " queries: " + ListText(queries)
  }

  /** Replaces the queries with those of the reply and counts one more iteration. */
  function QueryRewriteNode(s: AgentState, reply: Reply): (t: AgentState)
    ensures t.rewrittenQueries == ParseQueries(reply)
    ensures t.iterationCount == s.iterationCount + 1
    ensures t.reasoningSteps == s.reasoningSteps + [RewriteStep(t.rewrittenQueries)]
    ensures t == s.(rewrittenQueries := t.rewrittenQueries, iterationCount := t.iterationCount, reasoningSteps := t.reasoningSteps)
  {
    var queries := ParseQueries(reply);
    s.(rewrittenQueries := queries,
       reasoningSteps := s.reasoningSteps + [RewriteStep(queries)],
       iterationCount := s.iterationCount + 1)
  }

  // ---------------------------------------------------------------- retrieve

  /** A retrieval result as a document: missing text becomes the empty string. */
  function ToDocument(r: ChunkResult): (d: Document)
    ensures d.metadata.chunkId == r.chunkId && d.metadata.similarity == r.similarity
    ensures d.pageContent == r.text.GetOr("")
  {
    Document(r.text.GetOr(""), DocMeta(r.chunkId, r.docId, r.chunkIndex, r.heading, r.wordCount, r.similarity))
  }

  function ToDocuments(rs: seq<ChunkResult>): seq<Document> {
    seq(|rs|, i requires 0 <= i < |rs| => ToDocument(rs[i]))
  }

  /** All documents retrieved for `queries`, query by query, each query's results in rank order. */
  function Gathered(queries: seq<string>, fetch: string -> seq<ChunkResult>): seq<Document> {
    if queries == [] then []
    else Gathered(queries[..|queries| - 1], fetch) + ToDocuments(fetch(queries[|queries| - 1]))
  }

  const TopDocuments: nat := 30

  /** The first document for each chunk id, stably sorted by similarity (highest first), at most 30. */
  function Merge(all: seq<Document>): seq<Document> {
    Take(SortDesc(DedupBy(all, DocChunkId), DocSimilarity), TopDocuments)
  }

  function RetrieveStep(all: nat, unique: nat, top: nat): string {
    "[RETRIEVE] Retrieved " + NatToString(all) + " chunks (" + NatToString(unique)
    + " unique), kept top " + NatToString(top) + " by similarity."
  }

  /** The state after the retrieve node, as a function of the state and the retriever. */
  function RetrieveState(s: AgentState, fetch: string -> seq<ChunkResult>): AgentState {
    var all := Gathered(s.rewrittenQueries, fetch);
    var top := Merge(all);
    s.(documents := top,
       reasoningSteps := s.reasoningSteps + [RetrieveStep(|all|, |DedupBy(all, DocChunkId)|, |top|)])
  }

  /**
   * The retrieve node: one retrieval per query, every result converted to a
   * document, then the first document per chunk id kept, the rest sorted by
   * similarity and cut to 30. `documents` is replaced, not extended.
   */
  method RetrieveNode(s: AgentState, fetch: string -> seq<ChunkResult>) returns (t: AgentState)
    ensures t == RetrieveState(s, fetch)
  {
    var queries := s.rewrittenQueries;
    var allChunks: seq<Document> := [];
    var i := 0;
    while i < |queries|
      invariant 0 <= i <= |queries|
      invariant allChunks == Gathered(queries[..i], fetch)
    {
      var results := fetch(queries[i]);
      var j := 0;
      while j < |results|
        invariant 0 <= j <= |results|
        invariant allChunks == Gathered(queries[..i], fetch) + ToDocuments(results[..j])
      {
        ToDocumentsSnoc(results, j);
        allChunks := allChunks + [ToDocument(results[j])];
        j := j + 1;
      }
      GatheredSnoc(queries, i, fetch);
      i := i + 1;
    }
    assert queries[..i] == queries;

    var seenIds: set<string> := {};
    var uniqueChunks: seq<Document> := [];
    var k := 0;
    while k < |allChunks|
      invariant 0 <= k <= |allChunks|
      invariant uniqueChunks == DedupBy(allChunks[..k], DocChunkId)
      invariant seenIds == Keys(uniqueChunks, DocChunkId)
    {
      var chunk := allChunks[k];
      DedupSnoc(allChunks, k);
      if DocChunkId(chunk) !in seenIds {
        KeysSnoc(uniqueChunks, chunk, DocChunkId);
        seenIds := seenIds + {DocChunkId(chunk)};
        uniqueChunks := uniqueChunks + [chunk];
      }
      k := k + 1;
    }
    assert allChunks[..k] == allChunks;

    var sorted := SortDesc(uniqueChunks, DocSimilarity);
    var top := Take(sorted, TopDocuments);
    t := s.(documents := top,
            reasoningSteps := s.reasoningSteps + [RetrieveStep(|allChunks|, |uniqueChunks|, |top|)]);
  }

  lemma ToDocumentsSnoc(rs: seq<ChunkResult>, j: int)
    requires 0 <= j < |rs|
    ensures ToDocuments(rs[..j + 1]) == ToDocuments(rs[..j]) + [ToDocument(rs[j])]
  {
  }

  lemma GatheredSnoc(qs: seq<string>, i: int, fetch: string -> seq<ChunkResult>)
    requires 0 <= i < |qs|
    ensures Gathered(qs[..i + 1], fetch) == Gathered(qs[..i], fetch) + ToDocuments(fetch(qs[i])[..|fetch(qs[i])|])
  {
    assert qs[..i + 1][..i] == qs[..i];
    assert fetch(qs[i])[..|fetch(qs[i])|] == fetch(qs[i]);
  }

  lemma DedupSnoc(s: seq<Document>, k: int)
    requires 0 <= k < |s|
    ensures DedupBy(s[..k + 1], DocChunkId) ==
      if DocChunkId(s[k]) in Keys(DedupBy(s[..k], DocChunkId), DocChunkId) then DedupBy(s[..k], DocChunkId)
      else DedupBy(s[..k], DocChunkId) + [s[k]]
  {
    assert s[..k + 1][..k] == s[..k];
  }

  /**
   * What the merge keeps: at most 30 documents, one per chunk id, in
   * non-increasing similarity, each of them retrieved.
   */
  lemma MergeProperties(all: seq<Document>)
    ensures |Merge(all)| <= TopDocuments
    ensures DistinctKeys(Merge(all), DocChunkId)
    ensures SortedDesc(Merge(all), DocSimilarity)
    ensures forall d | d in Merge(all) :: d in all
  {
    var u := DedupBy(all, DocChunkId);
    var sorted := SortDesc(u, DocSimilarity);
    var r := Take(sorted, TopDocuments);
    forall d | d in r ensures d in all {
      var q :| 0 <= q < |r| && r[q] == d;
      assert sorted[q] == d;
      assert d in multiset(u);
    }
    forall i, j | 0 <= i < j < |r| ensures DocChunkId(r[i]) != DocChunkId(r[j]) {
      SortKeepsDistinctKeys(u, sorted, i, j);
    }
  }

  /**
   * The merge is a top 30: the first document retrieved for a chunk id is
   * kept unless 30 documents at least as similar were kept instead.
   */
  lemma MergeIsTopK(all: seq<Document>, i: int)
    requires 0 <= i < |all| && FirstOfKey(all, DocChunkId, i)
    ensures all[i] in Merge(all) || (|Merge(all)| == TopDocuments && forall d | d in Merge(all) :: DocSimilarity(d) >= DocSimilarity(all[i]))
  {
    var u := DedupBy(all, DocChunkId);
    var sorted := SortDesc(u, DocSimilarity);
    var r := Take(sorted, TopDocuments);
    DedupKeepsFirst(all, DocChunkId, i);
    assert all[i] in multiset(sorted);
    var p :| 0 <= p < |sorted| && sorted[p] == all[i];
    if p < TopDocuments {
      assert r[p] == all[i];
    } else {
      forall d | d in r ensures DocSimilarity(d) >= DocSimilarity(all[i]) {
        var q :| 0 <= q < |r| && r[q] == d;
        assert sorted[q] == d;
      }
    }
  }

  /** When there are at most 30 distinct chunk ids, every one of them survives the merge. */
  lemma MergeKeepsEveryIdWhenFew(all: seq<Document>)
    requires |DedupBy(all, DocChunkId)| <= TopDocuments
    ensures Keys(Merge(all), DocChunkId) == Keys(all, DocChunkId)
  {
    var u := DedupBy(all, DocChunkId);
    var sorted := SortDesc(u, DocSimilarity);
    assert Take(sorted, TopDocuments) == sorted;
    forall d | d in u ensures d in sorted {
      assert d in multiset(u);
    }
    forall d | d in sorted ensures d in u {
      assert d in multiset(sorted);
    }
  }

  lemma SortKeepsDistinctKeys(u: seq<Document>, sorted: seq<Document>, i: int, j: int)
    requires DistinctKeys(u, DocChunkId) && multiset(sorted) == multiset(u)
    requires 0 <= i < j < |sorted|
    ensures DocChunkId(sorted[i]) != DocChunkId(sorted[j])
  {
    var a, b := sorted[i], sorted[j];
    assert a in multiset(u) && b in multiset(u);
    var ia :| 0 <= ia < |u| && u[ia] == a;
    var ib :| 0 <= ib < |u| && u[ib] == b;
    if a == b {
      DocTwoPositions(sorted, i, j);
      DocMultiplicityOfDistinct(u, ia);
    }
  }

  lemma DocTwoPositions(s: seq<Document>, i: int, j: int)
    requires 0 <= i < j < |s| && s[i] == s[j]
    ensures multiset(s)[s[i]] >= 2
  {
    assert s == s[..i] + [s[i]] + s[i + 1..j] + [s[j]] + s[j + 1..];
  }

  lemma DocMultiplicityOfDistinct(s: seq<Document>, k: int)
    requires DistinctKeys(s, DocChunkId) && 0 <= k < |s|
    ensures multiset(s)[s[k]] == 1
  {
    var x := s[k];
    assert s == s[..k] + [x] + s[k + 1..];
    assert x !in s[..k] by {
      forall y | y in s[..k] ensures y != x {
        var j :| 0 <= j < k && s[..k][j] == y;
        assert s[j] == y;
      }
    }
    var t := s[k + 1..];
    assert x !in t by {
      forall j | 0 <= j < |t| ensures t[j] != x {
        assert t[j] == s[k + 1 + j];
      }
    }
  }

  /** Merging a list that already has one document per chunk id, in similarity order, only truncates it. */
  lemma MergeOfMerged(all: seq<Document>)
    requires DistinctKeys(all, DocChunkId) && SortedDesc(all, DocSimilarity)
    ensures Merge(all) == Take(all, TopDocuments)
  {
    DedupOfDistinct(all, DocChunkId);
    SortDescOfSorted(all, DocSimilarity);
  }

  /** Documents of equal similarity keep the order in which they were first retrieved. */
  lemma MergeIsStable(all: seq<Document>, v: real)
    ensures WithKey(SortDesc(DedupBy(all, DocChunkId), DocSimilarity), DocSimilarity, v)
         == WithKey(DedupBy(all, DocChunkId), DocSimilarity, v)
  {
    SortDescIsStable(DedupBy(all, DocChunkId), DocSimilarity, v);
  }

  // ---------------------------------------------------------------- grade

  predicate StrictlyIncreasing(idx: seq<int>) {
    forall a, b | 0 <= a < b < |idx| :: idx[a] < idx[b]
  }

  /** `r` is `docs` with some positions left out: the positions kept are `idx`. */
  predicate PicksAt(r: seq<Document>, docs: seq<Document>, idx: seq<int>) {
    && |idx| == |r|
    && StrictlyIncreasing(idx)
    && (forall k | 0 <= k < |idx| :: 0 <= idx[k] < |docs| && r[k] == docs[idx[k]])
  }

  ghost predicate IsSubsequence(r: seq<Document>, docs: seq<Document>) {
    exists idx :: PicksAt(r, docs, idx)
  }

  /** The 0-based positions named by the 1-based numbers of a grading reply. */
  function ChosenPositions(numbers: seq<nat>, n: nat): (chosen: set<int>)
    ensures forall i | i in chosen :: 0 <= i < n
  {
    set k | k in numbers && 1 <= k <= n :: k - 1
  }

  /** The members of `chosen` below `m`, in ascending order. */
  function AscendingBelow(chosen: set<int>, m: nat): (idx: seq<int>)
    ensures StrictlyIncreasing(idx)
    ensures forall k | 0 <= k < |idx| :: 0 <= idx[k] < m && idx[k] in chosen
    ensures forall i | 0 <= i < m && i in chosen :: i in idx
  {
    if m == 0 then []
    else
      var rest := AscendingBelow(chosen, m - 1);
      if m - 1 in chosen then rest + [m - 1] else rest
  }

  function Pick(docs: seq<Document>, idx: seq<int>): (r: seq<Document>)
    requires forall k | 0 <= k < |idx| :: 0 <= idx[k] < |docs|
    ensures |r| == |idx| && forall k | 0 <= k < |idx| :: r[k] == docs[idx[k]]
  {
    seq(|idx|, k requires 0 <= k < |idx| => docs[idx[k]])
  }

  /** The grading reply read as the model is asked to write it: stripped and upper-cased. */
  function GradeText(reply: Reply): string {
    if reply.Text? then Upper(Strip(reply.text)) else ""
  }

  /**
   * The documents a grading reply keeps: none for "NONE", all for "ALL",
   * otherwise those whose 1-based position appears among the reply's numbers,
   * in their original order and each once. A number too long for `int()`
   * raises `ValueError`, which the node catches by keeping every document.
   */
  function GradeSelect(docs: seq<Document>, reply: Reply): (r: seq<Document>)
    ensures IsSubsequence(r, docs)
    ensures GradeText(reply) == "NONE" ==> r == []
    ensures GradeText(reply) == "ALL" ==> r == docs
    ensures GradeText(reply) != "NONE" && GradeText(reply) != "ALL" && TooLongRun(GradeText(reply)) ==> r == docs
    ensures GradeText(reply) != "NONE" && GradeText(reply) != "ALL" && !TooLongRun(GradeText(reply)) ==>
      r == Pick(docs, AscendingBelow(ChosenPositions(DigitRuns(GradeText(reply)), |docs|), |docs|))
  {
    var text := GradeText(reply);
    if text == "NONE" then
      assert PicksAt([], docs, []);
      []
    else if text == "ALL" || TooLongRun(text) then
      var all := seq(|docs|, i requires 0 <= i < |docs| => i);
      assert PicksAt(docs, docs, all);
      docs
    else
      var idx := AscendingBelow(ChosenPositions(DigitRuns(text), |docs|), |docs|);
      var r := Pick(docs, idx);
      assert PicksAt(r, docs, idx);
      r
  }

  /**
   * A reply that is neither NONE nor ALL and names no position in range keeps
   * nothing, unless one of its numbers is too long to read, when it keeps all.
   */
  lemma GradeWithoutNumbersKeepsNothing(docs: seq<Document>, reply: Reply)
    requires GradeText(reply) != "NONE" && GradeText(reply) != "ALL"
    requires forall k | k in DigitRuns(GradeText(reply)) :: k < 1 || k > |docs|
    ensures GradeSelect(docs, reply) == if TooLongRun(GradeText(reply)) then docs else []
  {
    var chosen := ChosenPositions(DigitRuns(GradeText(reply)), |docs|);
    assert chosen == {};
    NoneChosen(chosen, |docs|);
  }

  /** A reply of more digits than `int()` reads falls back to keeping every document. */
  lemma OverlongNumberKeepsAll(docs: seq<Document>, reply: Reply)
    requires AllDigits(GradeText(reply)) && |GradeText(reply)| > IntMaxStrDigits
    ensures GradeSelect(docs, reply) == docs
  {
    AllDigitsIsOneRun(GradeText(reply));
    assert GradeText(reply)[0] != 'N';
  }

  /** A reply no longer than the limit never takes the fallback. */
  lemma ShortReplyIsRead(docs: seq<Document>, reply: Reply)
    requires GradeText(reply) != "NONE" && GradeText(reply) != "ALL" && |GradeText(reply)| <= IntMaxStrDigits
    ensures GradeSelect(docs, reply) == Pick(docs, AscendingBelow(ChosenPositions(DigitRuns(GradeText(reply)), |docs|), |docs|))
  {
    ShortTextHasNoLongRun(GradeText(reply));
  }

  lemma {:induction false} NoneChosen(chosen: set<int>, m: nat)
    requires chosen == {}
    ensures AscendingBelow(chosen, m) == []
  {
    if m > 0 {
      NoneChosen(chosen, m - 1);
    }
  }

  /** Position `i` (0-based) is kept exactly when the reply names `i + 1`. */
  lemma GradeKeepsNamedPositions(docs: seq<Document>, reply: Reply, i: int)
    requires GradeText(reply) != "NONE" && GradeText(reply) != "ALL"
    requires 0 <= i < |docs|
    ensures (i + 1) in DigitRuns(GradeText(reply)) <==>
      i in AscendingBelow(ChosenPositions(DigitRuns(GradeText(reply)), |docs|), |docs|)
  {
    NamedIsChosen(DigitRuns(GradeText(reply)), |docs|, i);
  }

  lemma NamedIsChosen(numbers: seq<nat>, n: nat, i: int)
    requires 0 <= i < n
    ensures (i + 1) in numbers <==> i in AscendingBelow(ChosenPositions(numbers, n), n)
  {
    var chosen := ChosenPositions(numbers, n);
    if (i + 1) in numbers {
      assert i in chosen;
    }
    if i in chosen {
      var k :| k in numbers && 1 <= k <= n && k - 1 == i;
    }
  }

  function GradeStep(graded: nat, relevant: nat): string {
    "[GRADE] Graded " + NatToString(graded) + " documents, " + NatToString(relevant) + " relevant."
  }

  /**
   * The grade node. With no documents the model is not consulted and nothing
   * is relevant; otherwise the reply selects the relevant documents.
   */
  function GradeNode(s: AgentState, reply: Reply): (t: AgentState)
    ensures s.documents == [] ==> t.relevantDocuments == []
    ensures IsSubsequence(t.relevantDocuments, t.documents)
    ensures t == s.(relevantDocuments := t.relevantDocuments, reasoningSteps := t.reasoningSteps)
    ensures |t.reasoningSteps| == |s.reasoningSteps| + 1 && t.reasoningSteps[..|s.reasoningSteps|] == s.reasoningSteps
  {
    if s.documents == [] then
      assert PicksAt([], [], []);
      s.(relevantDocuments := [], reasoningSteps := s.reasoningSteps + ["[GRADE] No documents to grade."])
    else
      var relevant := GradeSelect(s.documents, reply);
      s.(relevantDocuments := relevant,
         reasoningSteps := s.reasoningSteps + [GradeStep(|s.documents|, |relevant|)])
  }

  /** After grading: generate when something is relevant, rewrite while the budget (default 1) allows, else generate. */
  function ShouldRefineQuery(s: AgentState): (n: Node)
    ensures n == QueryRewrite || n == Generate
    ensures n == QueryRewrite <==> s.relevantDocuments == [] && s.iterationCount < s.maxIterations.GetOr(1)
  {
    if s.relevantDocuments != [] then Generate
    else if s.iterationCount < s.maxIterations.GetOr(1) then QueryRewrite
    else Generate
  }

  // ---------------------------------------------------------------- generate and direct

  /** The category display name of a document id's first path segment, 文档 when unknown. */
  function Category(docId: string): string {
    if StartsWith(docId, "main/") then "睡前消息"
    else if StartsWith(docId, "reference/") then "参考信息"
    else if StartsWith(docId, "opinion/") then "高见"
    else if StartsWith(docId, "daily/") then "每日新闻"
    else if StartsWith(docId, "commercial/") then "讲点黑话"
    else if StartsWith(docId, "business/") then "产经破壁机"
    else "文档"
  }

  /** The last "/" segment of the id with every ".md" removed. */
  function EpisodeNumber(docId: string): (n: string)
    ensures '/' !in n
  {
    var parts := Split(docId, '/');
    ReplaceAll(parts[|parts| - 1], ".md", "")
  }

  const LivestreamPrefix: string := "livestream/"

  /** The citation label of a document: livestream ids keep their path, others are category + episode number. */
  function EpisodeName(docId: string): (name: string)
    ensures StartsWith(docId, LivestreamPrefix) ==> name == "直播问答记录" + docId[|LivestreamPrefix|..]
    ensures !StartsWith(docId, LivestreamPrefix) ==> name == Category(docId) + EpisodeNumber(docId)
  {
    if StartsWith(docId, LivestreamPrefix) then "直播问答记录" + docId[|LivestreamPrefix|..]
    else Category(docId) + EpisodeNumber(docId)
  }

  /** The last segment of an id whose remaining text has no "/" is that text. */
  lemma {:induction false} LastSegment(prefix: string, rest: string)
    requires '/' !in rest
    ensures var parts := Split(prefix + "/" + rest, '/'); parts[|parts| - 1] == rest
    decreases |prefix|
  {
    var s := prefix + "/" + rest;
    assert s[|prefix|] == '/';
    IndexOfFirst(s, '/', |prefix|);
    var i := IndexOf(s, '/');
    SplitLast(s, '/', i);
    if i == |prefix| {
      assert s[i + 1..] == rest;
      assert Split(rest, '/') == [rest];
    } else {
      assert s[i] == prefix[i];
      DropThroughSeparator(prefix, rest, i);
      LastSegment(prefix[i + 1..], rest);
    }
  }

  function Last(parts: seq<string>): string
    requires parts != []
  {
    parts[|parts| - 1]
  }

  /** After the first separator, the split goes on with the text that follows it. */
  lemma SplitLast(s: string, c: char, i: nat)
    requires c in s && i == IndexOf(s, c)
    ensures Last(Split(s, c)) == Last(Split(s[i + 1..], c))
  {
    LastOfCons(s[..i], Split(s[i + 1..], c));
  }

  lemma LastOfCons(x: string, more: seq<string>)
    requires more != []
    ensures Last([x] + more) == Last(more)
  {
  }

  lemma DropThroughSeparator(prefix: string, rest: string, i: nat)
    requires i < |prefix|
    ensures (prefix + "/" + rest)[i + 1..] == prefix[i + 1..] + "/" + rest
  {
  }

  lemma OccursAtFirst(s: string, pat: string)
    ensures forall j | OccursAt(s, pat, j) && pat != [] :: s[j] == pat[0]
  {
    forall j | OccursAt(s, pat, j) && pat != [] ensures s[j] == pat[0] {
      assert s[j..j + |pat|][0] == s[j];
    }
  }

  lemma NoMdSuffix(n: string)
    requires '.' !in n
    ensures ReplaceAll(n, ".md", "") == n
  {
    OccursAtFirst(n, ".md");
  }

  /** An episode of the main programme is labelled 睡前消息 followed by its number. */
  lemma MainEpisodeName(range: string, number: string)
    requires '/' !in number && '.' !in number
    ensures EpisodeName("main/" + range + "/" + number) == "睡前消息" + number
  {
    var id := "main/" + range + "/" + number;
    EpisodeNumberOf("main/" + range, number);
    assert id == ("main/" + range) + "/" + number;
    assert id == "main/" + (range + "/" + number);
    MainCategory(range + "/" + number);
  }

  /** The episode number of an id is its last segment when that has no '.'. */
  lemma EpisodeNumberOf(prefix: string, number: string)
    requires '/' !in number && '.' !in number
    ensures EpisodeNumber(prefix + "/" + number) == number
  {
    LastSegment(prefix, number);
    NoMdSuffix(number);
  }

  /** An id under "main/" is not a livestream and belongs to 睡前消息. */
  lemma MainCategory(tail: string)
    ensures Category("main/" + tail) == "睡前消息" && !StartsWith("main/" + tail, LivestreamPrefix)
  {
    var id := "main/" + tail;
    assert id[..5] == "main/";
    assert StartsWith(id, "main/");
    assert id[0] == 'm' && LivestreamPrefix[0] == 'l';
    assert !StartsWith(id, LivestreamPrefix) by {
      assert |id| < |LivestreamPrefix| || id[..|LivestreamPrefix|][0] != LivestreamPrefix[0];
    }
  }

  lemma EpisodeNameOfLivestream()
    ensures EpisodeName("livestream/2023/05/20") == "直播问答记录2023/05/20"
  {
    var id := "livestream/2023/05/20";
    assert id[..|LivestreamPrefix|] == LivestreamPrefix;
    assert id[|LivestreamPrefix|..] == "2023/05/20";
  }

  /** The markdown citation of a document: its label linked to the archive page of its id. */
  function Citation(docId: string): string {
    "[[" + EpisodeName(docId) + "]](https://archive.bedtime.news/" + docId + ".md)"
  }

  /** What the answer model is shown about one relevant document. */
  datatype ContextEntry = ContextEntry(citation: string, similarity: real, heading: Option<string>, content: string)

  function ContextFor(docs: seq<Document>): (ctx: seq<ContextEntry>)
    ensures |ctx| == |docs|
    ensures forall i | 0 <= i < |docs| :: ctx[i].citation == Citation(docs[i].metadata.docId) && ctx[i].content == docs[i].pageContent
  {
    seq(|docs|, i requires 0 <= i < |docs| =>
      ContextEntry(Citation(docs[i].metadata.docId), docs[i].metadata.similarity, docs[i].metadata.heading, docs[i].pageContent))
  }

  function GenerateStep(documents: nat, answerLength: nat): string {
    "[GENERATE] Generated answer with " + NatToString(documents) + " documents. Answer length: "
    + NatToString(answerLength) + " characters."
  }

  function GenerateNode(s: AgentState, answer: string): (t: AgentState)
    ensures t.finalAnswer == answer
    ensures t == s.(finalAnswer := answer, reasoningSteps := s.reasoningSteps + [GenerateStep(|s.relevantDocuments|, |answer|)])
  {
    s.(finalAnswer := answer, reasoningSteps := s.reasoningSteps + [GenerateStep(|s.relevantDocuments|, |answer|)])
  }

  const DirectStep: string := "[DIRECT] Greeting/meta-question - answered directly."

  function DirectNode(s: AgentState, answer: string): (t: AgentState)
    ensures t.finalAnswer == answer
    ensures t == s.(finalAnswer := answer, reasoningSteps := s.reasoningSteps + [DirectStep])
  {
    s.(finalAnswer := answer, reasoningSteps := s.reasoningSteps + [DirectStep])
  }

  // ---------------------------------------------------------------- the graph

  /** The models' answers, as functions of what each node shows them. */
  datatype Llm = Llm(
    route: string -> Reply,
    rewrite: (string, int, seq<string>) -> Reply,
    grade: (string, seq<Document>) -> Reply,
    generate: (string, seq<ContextEntry>) -> string,
    direct: string -> string)

  /** The edges of the compiled graph. */
  predicate Edge(a: Node, b: Node) {
    || (a == Route && (b == QueryRewrite || b == Direct))
    || (a == QueryRewrite && b == Retrieve)
    || (a == Retrieve && b == Grade)
    || (a == Grade && (b == Generate || b == QueryRewrite))
  }

  predicate IsFinal(n: Node) {
    n == Generate || n == Direct
  }

  /** The remaining budget of rewrites, which each trip round the loop consumes. */
  function Budget(s: AgentState): nat {
    var m := s.maxIterations.GetOr(1);
    if s.iterationCount < m then m - s.iterationCount else 0
  }

  /** The most rewrites a loop entered at `s` can make: the first is unconditional. */
  function MaxRewrites(s: AgentState): nat {
    if Budget(s) == 0 then 1 else Budget(s)
  }

  /** query_rewrite, retrieve and grade, in that order. */
  function Trip(s: AgentState, llm: Llm, fetch: string -> seq<ChunkResult>): (t: AgentState)
    ensures t.iterationCount == s.iterationCount + 1
    ensures t.question == s.question && t.maxIterations == s.maxIterations
    ensures |t.reasoningSteps| == |s.reasoningSteps| + 3 && t.reasoningSteps[..|s.reasoningSteps|] == s.reasoningSteps
    ensures IsSubsequence(t.relevantDocuments, t.documents)
  {
    var s1 := QueryRewriteNode(s, llm.rewrite(s.question, s.iterationCount, s.rewrittenQueries));
    var s2 := RetrieveState(s1, fetch);
    var s3 := GradeNode(s2, llm.grade(s2.question, s2.documents));
    assert s3.reasoningSteps[..|s2.reasoningSteps|] == s2.reasoningSteps;
    s3
  }

  /** The loop from query_rewrite to the end of the run: the final state and the nodes visited. */
  function RagLoop(s: AgentState, llm: Llm, fetch: string -> seq<ChunkResult>): (r: (AgentState, seq<Node>))
    decreases Budget(s)
  {
    var t := Trip(s, llm, fetch);
    if ShouldRefineQuery(t) == QueryRewrite then
      var (fin, path) := RagLoop(t, llm, fetch);
      (fin, [QueryRewrite, Retrieve, Grade] + path)
    else
      (GenerateNode(t, llm.generate(t.question, ContextFor(t.relevantDocuments))), [QueryRewrite, Retrieve, Grade, Generate])
  }

  /** A whole run from `s`: the final state and the nodes in the order they ran. */
  function Run(s: AgentState, llm: Llm, fetch: string -> seq<ChunkResult>): (r: (AgentState, seq<Node>)) {
    var s0 := RouteNode(s, llm.route(s.question));
    if ShouldRetrieve(s0) == QueryRewrite then
      var (fin, path) := RagLoop(s0, llm, fetch);
      (fin, [Route] + path)
    else
      (DirectNode(s0, llm.direct(s0.question)), [Route, Direct])
  }

  function Rewrites(path: seq<Node>): nat {
    multiset(path)[QueryRewrite]
  }

  ghost predicate FollowsEdges(path: seq<Node>) {
    forall i | 0 <= i < |path| - 1 :: Edge(path[i], path[i + 1])
  }

  lemma FollowsEdgesPrepend(pre: seq<Node>, path: seq<Node>)
    requires pre != [] && path != [] && FollowsEdges(pre) && FollowsEdges(path)
    requires Edge(pre[|pre| - 1], path[0])
    ensures FollowsEdges(pre + path)
    ensures |pre + path| == |pre| + |path| && (pre + path)[0] == pre[0] && (pre + path)[|pre + path| - 1] == path[|path| - 1]
  {
    var full := pre + path;
    forall i | 0 <= i < |full| - 1 ensures Edge(full[i], full[i + 1]) {
      if i >= |pre| {
        assert full[i] == path[i - |pre|] && full[i + 1] == path[i - |pre| + 1];
      }
    }
  }

  /** One unfolding of the loop's path; a further trip consumes one unit of budget. */
  lemma RagLoopUnfold(s: AgentState, llm: Llm, fetch: string -> seq<ChunkResult>)
    ensures var t := Trip(s, llm, fetch);
      RagLoop(s, llm, fetch).1 ==
        if ShouldRefineQuery(t) == QueryRewrite then [QueryRewrite, Retrieve, Grade] + RagLoop(t, llm, fetch).1
        else [QueryRewrite, Retrieve, Grade, Generate]
    ensures var t := Trip(s, llm, fetch);
      ShouldRefineQuery(t) == QueryRewrite ==> Budget(t) >= 1 && Budget(t) == Budget(s) - 1
  {
  }

  /** A path through the loop: from query_rewrite to generate along the graph's edges. */
  ghost predicate LoopPath(path: seq<Node>) {
    |path| >= 4 && path[0] == QueryRewrite && path[|path| - 1] == Generate && FollowsEdges(path)
  }

  lemma LoopPathOfOneTrip()
    ensures LoopPath([QueryRewrite, Retrieve, Grade, Generate])
  {
  }

  lemma LoopPathPrepend(path: seq<Node>)
    requires LoopPath(path)
    ensures LoopPath([QueryRewrite, Retrieve, Grade] + path)
  {
    FollowsEdgesPrepend([QueryRewrite, Retrieve, Grade], path);
  }

  /** The nodes the loop visits start at query_rewrite, end at generate and follow the graph's edges. */
  lemma {:induction false} RagLoopPath(s: AgentState, llm: Llm, fetch: string -> seq<ChunkResult>)
    ensures LoopPath(RagLoop(s, llm, fetch).1)
    decreases Budget(s)
  {
    RagLoopUnfold(s, llm, fetch);
    var t := Trip(s, llm, fetch);
    if ShouldRefineQuery(t) == QueryRewrite {
      RagLoopPath(t, llm, fetch);
      LoopPathPrepend(RagLoop(t, llm, fetch).1);
    } else {
      LoopPathOfOneTrip();
    }
  }

  lemma RewritesPrepend(pre: seq<Node>, path: seq<Node>)
    ensures Rewrites(pre + path) == Rewrites(pre) + Rewrites(path)
  {
    assert multiset(pre + path) == multiset(pre) + multiset(path);
  }

  /** The loop rewrites at least once and at most as often as the budget allows. */
  lemma {:induction false} RagLoopRewrites(s: AgentState, llm: Llm, fetch: string -> seq<ChunkResult>)
    ensures 1 <= Rewrites(RagLoop(s, llm, fetch).1) <= MaxRewrites(s)
    decreases Budget(s)
  {
    RagLoopUnfold(s, llm, fetch);
    var t := Trip(s, llm, fetch);
    var refine := ShouldRefineQuery(t) == QueryRewrite;
    if refine {
      RagLoopRewrites(t, llm, fetch);
    }
    RewritesStep(RagLoop(s, llm, fetch).1, RagLoop(t, llm, fetch).1, refine, Budget(s), Budget(t));
  }

  /** One step of the bound: a trip adds one rewrite and takes one from the budget. */
  lemma RewritesStep(path: seq<Node>, rest: seq<Node>, refine: bool, bs: nat, bt: nat)
    requires path == if refine then [QueryRewrite, Retrieve, Grade] + rest else [QueryRewrite, Retrieve, Grade, Generate]
    requires refine ==> bt >= 1 && bt == bs - 1 && 1 <= Rewrites(rest) <= bt
    ensures 1 <= Rewrites(path) <= (if bs == 0 then 1 else bs)
  {
    TripRewrites();
    if refine {
      RewritesPrepend([QueryRewrite, Retrieve, Grade], rest);
    }
  }

  /** One trip of the loop rewrites once, whether or not it ends at generate. */
  lemma TripRewrites()
    ensures Rewrites([QueryRewrite, Retrieve, Grade]) == 1
    ensures Rewrites([QueryRewrite, Retrieve, Grade, Generate]) == 1
  {
    assert multiset([QueryRewrite, Retrieve, Grade]) == multiset{QueryRewrite, Retrieve, Grade};
    assert multiset([QueryRewrite, Retrieve, Grade, Generate]) == multiset{QueryRewrite, Retrieve, Grade, Generate};
  }

  /** A prefix of a prefix is a prefix. */
  lemma PrefixOfPrefix(a: seq<string>, b: seq<string>, c: seq<string>)
    requires |b| <= |a| && a[..|b|] == b && |c| <= |b| && b[..|c|] == c
    ensures a[..|c|] == c
  {
    assert a[..|c|] == a[..|b|][..|c|];
  }

  lemma SnocPrefix(b: seq<string>, x: string)
    ensures (b + [x])[..|b|] == b
  {
  }

  /**
   * The state the loop ends in: the iteration counter has counted every
   * rewrite, every node has appended one reasoning step, and the relevant
   * documents are a subsequence of the documents.
   */
  lemma {:induction false} RagLoopState(s: AgentState, llm: Llm, fetch: string -> seq<ChunkResult>)
    ensures var (fin, path) := RagLoop(s, llm, fetch);
      && fin.iterationCount == s.iterationCount + Rewrites(path)
      && |fin.reasoningSteps| == |s.reasoningSteps| + |path|
      && fin.reasoningSteps[..|s.reasoningSteps|] == s.reasoningSteps
      && fin.question == s.question
      && IsSubsequence(fin.relevantDocuments, fin.documents)
    decreases Budget(s)
  {
    TripRewrites();
    var t := Trip(s, llm, fetch);
    if ShouldRefineQuery(t) == QueryRewrite {
      RagLoopState(t, llm, fetch);
      var (fin, path) := RagLoop(t, llm, fetch);
      assert RagLoop(s, llm, fetch) == (fin, [QueryRewrite, Retrieve, Grade] + path);
      RewritesPrepend([QueryRewrite, Retrieve, Grade], path);
      PrefixOfPrefix(fin.reasoningSteps, t.reasoningSteps, s.reasoningSteps);
    } else {
      var fin := GenerateNode(t, llm.generate(t.question, ContextFor(t.relevantDocuments)));
      assert RagLoop(s, llm, fetch) == (fin, [QueryRewrite, Retrieve, Grade, Generate]);
      SnocPrefix(t.reasoningSteps, GenerateStep(|t.relevantDocuments|, |fin.finalAnswer|));
      PrefixOfPrefix(fin.reasoningSteps, t.reasoningSteps, s.reasoningSteps);
    }
  }

  /** A reply other than RAG ends the run at direct after route, with nothing retrieved or rewritten. */
  lemma GreetingRunsDirect(question: string, llm: Llm, fetch: string -> seq<ChunkResult>)
    requires RouteDecision(llm.route(question)) != Some("RAG")
    ensures var (fin, path) := Run(CreateInitialState(question), llm, fetch);
      && path == [Route, Direct]
      && fin.documents == [] && fin.rewrittenQueries == [] && fin.iterationCount == 0
      && fin.finalAnswer == llm.direct(question)
      && |fin.reasoningSteps| == 2
  {
  }

  /**
   * From the initial state, a run that takes the retrieval path rewrites once
   * or twice, ends at generate, and leaves the iteration counter equal to the
   * number of rewrites.
   */
  lemma RagRunIsBounded(question: string, llm: Llm, fetch: string -> seq<ChunkResult>)
    requires RouteDecision(llm.route(question)) == Some("RAG")
    ensures var (fin, path) := Run(CreateInitialState(question), llm, fetch);
      && path[0] == Route && path[|path| - 1] == Generate
      && 1 <= Rewrites(path) <= 2
      && fin.iterationCount == Rewrites(path)
      && |fin.reasoningSteps| == |path|
      && FollowsEdges(path)
  {
    var s0 := RouteNode(CreateInitialState(question), llm.route(question));
    assert Budget(s0) == 2 && s0.iterationCount == 0 && s0.reasoningSteps == [RouteStep(Some("RAG"))];
    var (fin, loop) := RagLoop(s0, llm, fetch);
    assert Run(CreateInitialState(question), llm, fetch) == (fin, [Route] + loop);
    RagLoopPath(s0, llm, fetch);
    RagLoopRewrites(s0, llm, fetch);
    RagLoopState(s0, llm, fetch);
    RunPath(loop);
  }

  lemma RunPath(loop: seq<Node>)
    requires LoopPath(loop)
    ensures var path := [Route] + loop;
      path[0] == Route && path[|path| - 1] == Generate && FollowsEdges(path) && Rewrites(path) == Rewrites(loop)
      && |path| == |loop| + 1
  {
    assert multiset([Route] + loop) == multiset([Route]) + multiset(loop);
    FollowsEdgesPrepend([Route], loop);
  }

  /** When grading always keeps nothing, the loop uses its whole budget (at least one rewrite). */
  lemma {:induction false} NothingRelevantUsesBudget(s: AgentState, llm: Llm, fetch: string -> seq<ChunkResult>)
    requires forall q, docs :: GradeText(llm.grade(q, docs)) == "NONE"
    ensures Rewrites(RagLoop(s, llm, fetch).1) == MaxRewrites(s)
    decreases Budget(s)
  {
    var t := Trip(s, llm, fetch);
    assert t.relevantDocuments == [];
    if ShouldRefineQuery(t) == QueryRewrite {
      NothingRelevantUsesBudget(t, llm, fetch);
      var path := RagLoop(t, llm, fetch).1;
      assert multiset([QueryRewrite, Retrieve, Grade] + path) == multiset([QueryRewrite, Retrieve, Grade]) + multiset(path);
    } else {
      assert multiset([QueryRewrite, Retrieve, Grade, Generate])[QueryRewrite] == 1;
    }
  }

  /** With the initial budget of two and grading that never keeps anything, a run rewrites exactly twice. */
  lemma NothingRelevantRewritesTwice(question: string, llm: Llm, fetch: string -> seq<ChunkResult>)
    requires RouteDecision(llm.route(question)) == Some("RAG")
    requires forall q, docs :: GradeText(llm.grade(q, docs)) == "NONE"
    ensures Rewrites(Run(CreateInitialState(question), llm, fetch).1) == 2
  {
    var s0 := RouteNode(CreateInitialState(question), llm.route(question));
    NothingRelevantUsesBudget(s0, llm, fetch);
    var path := RagLoop(s0, llm, fetch).1;
    assert multiset([Route] + path) == multiset([Route]) + multiset(path);
  }
}
