# BedtimeNews agent and indexer, modelled in Dafny

This project models the two parts of the BedtimeNews (睡前消息) knowledge-base
system that carry real logic, and proves properties about the model.

The first part is the **agentic retrieval workflow** of the question-answering
service. A question is routed either to a direct answer or into a retrieval loop:

- *query_rewrite* turns the question into search queries;
- *retrieve* runs one vector search per query, merges the results by chunk id,
  sorts them by similarity and keeps the top 30;
- *grade* keeps the documents the grading model names;
- the loop goes back to *query_rewrite* while nothing is relevant and the
  iteration budget allows, and otherwise ends at *generate*.

Around the workflow sit:

- the event-stream filter that turns workflow events into "step" and
  "answer_chunk" emissions;
- the retriever with its LRU result cache;
- the similarity search over the chunks table;
- the request and response models with their validity bounds and defaults.

The second part is the **incremental indexer**:

- it scans the markdown archive and filters the files by include and exclude
  patterns and by size;
- it detects added, modified and deleted files against the indexing history;
- it chunks documents by headings, paragraphs and a word budget, carrying an
  overlap between chunks;
- it embeds the chunk texts, splitting inputs over the token limit and averaging
  their vectors back;
- it keeps the chunks table, the indexing history and the file-action log up to
  date, file by file, and summarises each run in statistics.

External services are parameters of the model:

- the language model's replies;
- the embedding provider, the tokenizer, MD5 and SHA-256;
- the glob matcher, file sizes and the document loader.

PostgreSQL tables are maps (`IndexStore.IndexDb`) or sequences of rows
(`AgentVectorDb`). Code that changes state in place is modelled as imperative
Dafny:

- the cache, the retriever and the index store are classes;
- the loops of the retrieve node, the stream filter, the chunker, the
  embedding batching, the change detector, the file scanner, the statistics and
  the pipeline are methods;
- each of these is proved equal to a specification function, and the
  properties are proved about that function.

Modules follow the source files:

- `Wrappers`, `Text` and `Seqs` are shared helpers;
- `AgentModels`, `AgentVectorDb`, `Cache`, `Retriever`, `Graph` and `Agent`
  model `agent/src`;
- `IndexerModels`, `ChunkWords`, `ChunkSections`, `ChunkOverlap`, `ChunkPack`
  and `Chunker` model `indexer/src/chunker.py`;
- `Embeddings`, `ChangeDetector`, `IndexStore`, `FileScanner`, `Stats` and
  `Pipeline` model the rest of `indexer/src`.

Two behaviours of the code are easy to misread:

- **Grading reply with no number in range.** A reply other than NONE or ALL
  keeps only the documents whose 1-based positions it names. A reply that names
  none of them keeps nothing (`Graph.GradeWithoutNumbersKeepsNothing`). The
  node keeps every document only when `int()` raises `ValueError`. For runs of
  ASCII digits that happens when a run is longer than 4300 digits, the
  interpreter's default limit on string-to-integer conversion
  (`Graph.OverlongNumberKeepsAll`).
- **Iteration bound.** From the initial state (budget 2), a RAG run makes one or
  two rewrites, so `iteration_count` ends at most at `max_iterations`
  (`Graph.RagRunIsBounded`).

## Model

| member | source | states |
|---|---|---|
| AgentModels.NewChatRequest | agent/src/models.py:13-25 | a chat request is valid iff the question has 1 to 2000 characters; `stream` is true only when given as true |
| AgentModels.NewRetrieveRequest | agent/src/models.py:39-70 | valid iff the query is non-empty, the threshold is in [0, 1] and the count is in [1, 100]; the defaults are 0.7, 10, no filter, and text and heading included |
| AgentModels.NewRetrieveResponse | agent/src/models.py:86-95 | the response echoes query, threshold and count; absent results become the empty list |
| AgentModels.DefaultsAreValid | agent/src/models.py:47-70 | a request built from a non-empty query with every default is valid |
| AgentVectorDb.WithEmbedding | agent/src/vector_db.py:144 | exactly the table rows whose embedding is not null are candidates |
| AgentVectorDb.ScoreAndFilter | agent/src/vector_db.py:142-155 | every kept row reaches the threshold and passes the document filter; every scored row that passes is kept |
| AgentVectorDb.Candidates | agent/src/vector_db.py:135 | the candidates hold at most one row per chunk id |
| AgentVectorDb.PrecedesTotal | agent/src/vector_db.py:157-158 | the result order (similarity descending, then chunk id ascending) relates any two rows |
| AgentVectorDb.PrecedesTransitive | agent/src/vector_db.py:157-158 | the result order is transitive |
| AgentVectorDb.SortMatches | agent/src/vector_db.py:157-158 | sorting gives a permutation in result order |
| AgentVectorDb.SearchSimilarChunks | agent/src/vector_db.py:114-168 | a database error becomes a failure with the "Query execution error" message; otherwise at most `count` rows, ordered, distinct by chunk id, all above the threshold and inside the filter, each a scored row with an embedding |
| AgentVectorDb.SearchIsTopK | agent/src/vector_db.py:157-159 | a candidate left out of the result is preceded by every one of the `count` returned rows |
| AgentVectorDb.CandidatesComplete | agent/src/vector_db.py:135-155 | in a table keyed by chunk id, every row with an embedding that passes the threshold and filter is a candidate |
| Cache.KeyStringInjective | agent/src/cache.py:7-20 | the key string "query:threshold:count" determines the query, the threshold and the count, given that the two thresholds render without a colon and differently when they differ |
| Cache.LruIsUnique | agent/src/cache.py:78-85 | with distinct stamps, the least recently used entry is unique |
| Cache.SizeBound | agent/src/cache.py:74-82 | the bound on the size is the capacity when the capacity is at least 1, and 1 otherwise |
| Cache.LRUCache.constructor | agent/src/cache.py:30-39 | a new cache is empty, with its counter at 0 |
| Cache.LRUCache.Get | agent/src/cache.py:41-57 | a miss returns None and changes nothing; a hit returns the value, bumps the counter by one and gives the key a stamp above every other |
| Cache.LRUCache.Put | agent/src/cache.py:59-76 | the key ends up holding the value with a fresh stamp; an existing key is overwritten without eviction; a new key in a full cache first evicts a least recently used entry |
| Cache.LRUCache.EvictLru | agent/src/cache.py:78-85 | exactly one entry with the smallest stamp is removed, if there is one |
| Cache.LRUCache.Clear | agent/src/cache.py:87-90 | the cache is empty and the counter is 0 |
| Cache.LRUCache.Size | agent/src/cache.py:92-94 | the size is the number of keys and never exceeds the bound |
| Retriever.ToChunkResult | agent/src/retriever.py:44-53 | ids and rank come from the row; text and heading are kept only when the request asks for them |
| Retriever.BuildResults | agent/src/retriever.py:42-54 | one result per search row, in search order, with ranks 1..n |
| Retriever.ResponseFor | agent/src/retriever.py:56-61 | the response echoes the query, threshold and count and ranks its results 1..n |
| Retriever.Retriever.constructor | agent/src/retriever.py:22-24 | the retriever starts with an empty cache of capacity 1000 |
| Retriever.Retriever.Retrieve | agent/src/retriever.py:26-65 | a cache hit returns the cached response and only refreshes its stamp; a miss searches without the document filter, stores the built response under the same key exactly as `put` does (restamping, or evicting the least recently used entry when a new key meets a full cache), or passes the search error on and leaves the cache alone |
| Retriever.Retriever.RetrieveBatch | agent/src/retriever.py:67-111 | no requests give the empty list; otherwise one response per request and embedding, in order, or the error of the first failed search, every earlier search having succeeded |
| Graph.CreateInitialState | agent/src/graph.py:811-822 | a run starts with no retrieval decision, nothing retrieved, iteration 0 and a budget of 2 |
| Graph.RouteNode | agent/src/graph.py:192-256 | retrieval is needed iff the stripped, upper-cased reply is "RAG"; one route step is appended |
| Graph.RouteIgnoresSpaceAndCase | agent/src/graph.py:238-242 | the reply " rag\n" routes to retrieval |
| Graph.RouteOtherwiseDirect | agent/src/graph.py:238-242 | "RAG." and a non-text reply take the direct path |
| Graph.ShouldRetrieve | agent/src/graph.py:707-711 | the next node is query_rewrite iff retrieval is needed, and direct otherwise |
| Graph.ParseQueries | agent/src/graph.py:354-358 | the queries are non-empty, stripped lines of the reply; a non-text reply gives none |
| Graph.NonBlankLines | agent/src/graph.py:355 | each query is the strip of some reply line, and no query is blank |
| Graph.QueryRewriteNode | agent/src/graph.py:259-377 | the queries are replaced (not accumulated), the iteration count goes up by one, and one step is appended |
| Text.ReprOfPlain | agent/src/graph.py:365-367 | in the rewrite step, a query of printable ASCII without quotes or backslashes is shown between single quotes, unchanged |
| Graph.RetrieveNode | agent/src/graph.py:380-456 | the retrieve node equals the merge of every query's results, replacing `documents` |
| Graph.MergeProperties | agent/src/graph.py:424-436 | the merge keeps at most 30 documents, distinct by chunk id, sorted by similarity, all among the retrieved ones |
| Graph.MergeIsTopK | agent/src/graph.py:424-436 | the first document of each chunk id is kept, or 30 documents at least as similar are |
| Graph.MergeKeepsEveryIdWhenFew | agent/src/graph.py:424-436 | with at most 30 distinct chunk ids, every id survives the merge |
| Graph.MergeOfMerged | agent/src/graph.py:424-436 | merging documents that are already distinct and sorted only cuts them to 30 |
| Graph.MergeIsStable | agent/src/graph.py:433 | the sort keeps documents of equal similarity in their first-seen order |
| Graph.GradeSelect | agent/src/graph.py:512-538 | NONE keeps nothing; ALL keeps everything; a number too long for `int()` keeps everything; otherwise exactly the named 1-based positions in [1, N], ascending; always a subsequence of the documents |
| Graph.GradeWithoutNumbersKeepsNothing | agent/src/graph.py:526-538 | a reply with no number in [1, N] keeps nothing, unless one of its numbers is too long for `int()`, when it keeps everything |
| Graph.OverlongNumberKeepsAll | agent/src/graph.py:526-538 | a reply of more than 4300 digits makes `int()` raise and keeps every document |
| Graph.ShortReplyIsRead | agent/src/graph.py:526-532 | a reply of at most 4300 characters is always read as numbers: the kept documents are the named positions |
| Graph.GradeKeepsNamedPositions | agent/src/graph.py:528-532 | a position is kept iff its 1-based number occurs in the reply |
| Graph.GradeNode | agent/src/graph.py:459-554 | no documents give no relevant documents without consulting the model; the relevant documents are a subsequence of the documents; one step is appended |
| Graph.ShouldRefineQuery | agent/src/graph.py:714-739 | the next node is query_rewrite iff nothing is relevant and the count is below the budget (1 when absent), and generate otherwise |
| Graph.EpisodeNumber | agent/src/graph.py:770-774 | the episode number holds no "/" |
| Graph.EpisodeName | agent/src/graph.py:747-797 | a livestream id keeps its rest verbatim after 直播问答记录; any other id is its category label followed by its episode number |
| Graph.MainEpisodeName | agent/src/graph.py:770-779 | "main/<range>/<n>" is labelled 睡前消息<n> |
| Graph.EpisodeNameOfLivestream | agent/src/graph.py:764-767 | "livestream/2023/05/20" is labelled 直播问答记录2023/05/20 |
| Graph.ContextFor | agent/src/graph.py:578-596 | each relevant document is shown with its citation link to https://archive.bedtime.news/{doc_id}.md and its content |
| Graph.GenerateNode | agent/src/graph.py:557-655 | the final answer is the model's answer; one generate step is appended |
| Graph.DirectNode | agent/src/graph.py:658-699 | the final answer is the model's answer; the direct step is appended |
| Graph.Trip | agent/src/graph.py:171-172 | rewrite, retrieve and grade add one iteration and three steps and keep relevant documents within documents |
| Graph.RagLoopPath | agent/src/graph.py:163-182 | the loop path follows the graph's edges and ends at generate |
| Graph.RagLoopRewrites | agent/src/graph.py:714-739 | the loop rewrites at least once and at most as often as the budget allows |
| Graph.RagLoopState | agent/src/graph.py:369-376 | the iteration count grows by the number of rewrites; one reasoning step per node, the earlier ones kept |
| Graph.GreetingRunsDirect | agent/src/graph.py:163-170 | a non-RAG route runs route then direct, retrieves nothing and answers directly |
| Graph.RagRunIsBounded | agent/src/graph.py:163-182 | a RAG run from the initial state starts at route, ends at generate and makes 1 or 2 rewrites |
| Graph.NothingRelevantRewritesTwice | agent/src/graph.py:714-739 | when grading never finds anything relevant, a RAG run rewrites exactly twice |
| Agent.AgentQuery | agent/src/agent.py:35-47 | the result holds only "answer", equal to the run's final answer |
| Agent.StepType | agent/src/agent.py:121-131 | query_rewrite maps to rewrite, generate and direct to generate, route, retrieve and grade to themselves, and no other node has a step type |
| Agent.StreamQuery | agent/src/agent.py:50-149 | the stream loop emits exactly what the event fold defines |
| Agent.EmitSteps | agent/src/agent.py:109-138 | the loop over one event's reasoning steps emits each step whose node-and-content key is new, under the node's step type, and leaves every key of the list seen |
| Agent.EmissionsHaveSources | agent/src/agent.py:99-149 | steps come only from dict outputs of the six nodes' completion events; answer chunks only from message chunks of generate or direct |
| Agent.StepKeysAreDistinct | agent/src/agent.py:114-118 | a step with a given node_content key is emitted at most once |
| Agent.EveryStepIsEmitted | agent/src/agent.py:109-138 | every reasoning step of a completion event is emitted under its key |
| Agent.SameContentOtherNode | agent/src/agent.py:115 | the same content under another node is emitted again |
| Agent.RepeatedStepOnce | agent/src/agent.py:109-118 | a step repeated within one output is emitted once |
| Agent.ChunksInOrder | agent/src/agent.py:141-149 | answer chunks pass in order; chunks of other nodes or kinds are dropped |
| ChunkWords.CountWordsAtMostLength | indexer/src/chunker.py:73-88 | the word count never exceeds the text length |
| ChunkWords.CountWordsAppend | indexer/src/chunker.py:83-88 | word counts add up over a concatenation that does not split a letter run |
| ChunkWords.WordTokensCountWords | indexer/src/chunker.py:275-280 | the CJK characters and letter runs that count as words are exactly the word tokens the overlap extraction sees |
| ChunkWords.StripKeepsWords | indexer/src/chunker.py:83-88 | stripping does not change the word count |
| ChunkWords.CountWordsExample | indexer/src/chunker.py:83-88 | "睡前 news!" counts 3 words |
| ChunkSections.HeadingOf | indexer/src/chunker.py:148-151 | a heading line starts with 1 to 6 '#' and a space; its title is the stripped rest |
| ChunkSections.ExtractHeadings | indexer/src/chunker.py:137-154 | headings stand at '#' characters of the text, levels 1 to 6, in increasing position |
| ChunkSections.SplitIntoSections | indexer/src/chunker.py:91-134 | the sectioning loop equals the section function |
| ChunkSections.NoHeadingsOneSection | indexer/src/chunker.py:102-104 | without headings there is one section: no heading, level 0, the whole text, no breadcrumb |
| ChunkSections.SectionsFollowHeadings | indexer/src/chunker.py:109-132 | one section per heading, spanning its heading to the next one, stripped, with the breadcrumb ending at its own title |
| ChunkSections.StackShape | indexer/src/chunker.py:116-123 | the breadcrumb stack has strictly increasing levels and ends with the latest heading |
| ChunkSections.StackFromHeadings | indexer/src/chunker.py:116-123 | every breadcrumb entry is an earlier heading |
| ChunkSections.HeadingExample | indexer/src/chunker.py:137-154 | "intro\n## Budget  \nbody" has one heading, level 2, "Budget", at offset 6 |
| ChunkOverlap.BreakPos | indexer/src/chunker.py:290-298 | a break position is where a break pattern occurs; none means no pattern occurs |
| ChunkOverlap.LastWords | indexer/src/chunker.py:262-300 | no words are asked for: ""; the text has at most that many: the whole text; otherwise a stripped tail of the text starting at the estimated position or just after a break within 50 characters of it |
| ChunkOverlap.LastWordsIsTail | indexer/src/chunker.py:285-300 | the overlap is a stripped suffix starting at the estimated position or just after a break within 50 characters of it |
| ChunkOverlap.LastWordsAfterBreak | indexer/src/chunker.py:293-298 | a start moved off the estimate is just after a break pattern in the search window |
| ChunkOverlap.ExtractLastWords | indexer/src/chunker.py:262-300 | the extraction loop equals the overlap function |
| ChunkPack.Paragraphs | indexer/src/chunker.py:249-259 | paragraphs are non-empty and stripped |
| ChunkPack.ParagraphsKeepWords | indexer/src/chunker.py:249-259 | splitting into paragraphs loses no words |
| ChunkPack.PackedLayout | indexer/src/chunker.py:210-244 | every chunk is its overlap (if any) then its paragraphs, and the paragraphs of all chunks are the section's, in order |
| ChunkPack.PackedOverlap | indexer/src/chunker.py:205-226 | the first chunk opens with the previous overlap, every later chunk with the overlap of the chunk before it |
| ChunkPack.PackedFlush | indexer/src/chunker.py:213-229 | a chunk is closed only when the next paragraph would take it over the target |
| ChunkPack.PackSize | indexer/src/chunker.py:203-233 | the running size is the word count of the open chunk |
| ChunkPack.ChunkSection | indexer/src/chunker.py:157-246 | the section loop equals the section-chunking function |
| ChunkPack.SmallSectionOneChunk | indexer/src/chunker.py:184-197 | a section within the maximum is one chunk: overlap, blank line and content, stripped, or the content alone |
| ChunkPack.SectionHasChunks | indexer/src/chunker.py:178-246 | every section yields at least one raw chunk |
| Chunker.ChunkIdsDiffer | indexer/src/chunker.py:55 | chunks of one document at different indices have different ids |
| Chunker.ChunkDocument | indexer/src/chunker.py:15-70 | the document loop equals the chunking function, carrying the overlap of each section's last raw chunk |
| Chunker.OverlapFromLastRaw | indexer/src/chunker.py:65-68 | the next section's overlap comes from the last raw chunk, even a filtered one |
| Chunker.DocumentChunksNumbered | indexer/src/chunker.py:50-63 | kept chunks have indices 0..k-1, at least the minimum word count, the document's id and distinct chunk ids |
| Embeddings.Slices | indexer/src/embeddings.py:113-121 | slices are non-empty and at most `size` long, all but the last exactly `size` |
| Embeddings.SlicesConcat | indexer/src/embeddings.py:113-121 | the slices concatenate back to the token list |
| Embeddings.SlicesCount | indexer/src/embeddings.py:113-121 | there are ceil(n / size) slices |
| Embeddings.SplitByTokens | indexer/src/embeddings.py:101-121 | the split loop decodes slices of max_tokens - 100 tokens |
| Embeddings.PiecesOf | indexer/src/embeddings.py:75-94 | a text within 8191 tokens stays whole; a longer one becomes its decoded slices; it is split iff it has more than one piece |
| Embeddings.ValidateAndSplitTexts | indexer/src/embeddings.py:54-98 | the validation loop equals the validated texts and their original indices |
| Embeddings.IndicesInOrder | indexer/src/embeddings.py:72-98 | original indices are below the text count, non-decreasing and cover every text |
| Embeddings.SameCountIffNoSplit | indexer/src/embeddings.py:75-94 | the validated list is as long as the input iff no text was split |
| Embeddings.NoSplitIdentity | indexer/src/embeddings.py:75-94 | with no split the texts and indices pass through unchanged |
| Embeddings.GroupByIndex | indexer/src/embeddings.py:141-146 | the grouping loop collects each index's vectors in order |
| Embeddings.Mean | indexer/src/embeddings.py:148-157 | the merged vector is the element-wise mean, as long as the shortest vector |
| Embeddings.MergeGroups | indexer/src/embeddings.py:148-160 | one vector per original index in order, or the first missing index |
| Embeddings.MergeSplit | indexer/src/embeddings.py:124-139 | embeddings as many as the originals pass through unchanged |
| Embeddings.MergeSplitEmbeddings | indexer/src/embeddings.py:124-160 | the merge loop equals the merge function |
| Embeddings.Embeddings | indexer/src/embeddings.py:18-21 | no texts give no embeddings |
| Embeddings.GenerateEmbeddings | indexer/src/embeddings.py:18-51 | the batching loop equals the embedding function |
| Embeddings.EmbedBatchesEach | indexer/src/embeddings.py:35-48 | batch results concatenate in order to one vector per validated text |
| Embeddings.OneVectorPerText | indexer/src/embeddings.py:18-51 | when the provider embeds texts one by one, the output has exactly one vector per input text: its own, or the mean of its pieces' |
| ChangeDetector.ChangesOf | indexer/src/change_detector.py:11-35 | new or history-less files are added, files with a different hash modified, vanished indexed files deleted; the sets are disjoint |
| ChangeDetector.DetectChanges | indexer/src/change_detector.py:11-35 | the detection loop equals the change function |
| ChangeDetector.UnchangedFileIsQuiet | indexer/src/change_detector.py:26-29 | a file with an unchanged hash is in no set |
| ChangeDetector.ChangesCoverCurrent | indexer/src/change_detector.py:17-29 | every current file is added, modified or unchanged |
| ChangeDetector.GetDocId | indexer/src/change_detector.py:44-46 | the doc id is the path without the suffix of its last segment |
| ChangeDetector.DocIdOfMarkdown | indexer/src/change_detector.py:44-46 | removing ".md" gives back the path |
| ChangeDetector.DocIdExample | indexer/src/change_detector.py:44-46 | "main/501-600/588.md" has id "main/501-600/588" |
| IndexStore.DocKeys | indexer/src/vector_db.py:145-152 | the keys of a document are exactly the rows with that doc id |
| IndexStore.WithoutDoc | indexer/src/vector_db.py:145-152 | deleting a document removes exactly its rows |
| IndexStore.InsertRows | indexer/src/vector_db.py:179-210 | insertion keeps every existing row, adds the new ids, and stores only given rows |
| IndexStore.InsertRowsAppend | indexer/src/vector_db.py:202-210 | inserting in batches equals inserting all at once |
| IndexStore.InsertRowsTwice | indexer/src/vector_db.py:179 | inserting the same rows again changes nothing |
| IndexStore.InsertFreshRows | indexer/src/vector_db.py:179-200 | rows with fresh, distinct ids are stored as given |
| IndexStore.RowsAsWritten | indexer/src/vector_db.py:161-200 | the rows the code builds: none for no chunks, one per chunk otherwise |
| IndexStore.MissingEmbeddingsRejected | indexer/src/vector_db.py:157-199 | non-empty chunks with no embeddings fail at index 0 |
| IndexStore.RowsToInsert | indexer/src/vector_db.py:161-200 | no chunks give no rows; a length mismatch fails; otherwise one row per chunk with its embedding, or none when there are no embeddings |
| IndexStore.RowsAgreeWhenWritten | indexer/src/vector_db.py:161-200 | where the code's rows exist, the corrected rows are the same |
| Pipeline.PipelineRowsAsWritten | indexer/src/pipeline.py:140-144 | the pipeline passes one embedding per chunk, so the rows it stores are exactly the rows the code as written builds |
| Embeddings.EmbeddingsCount | indexer/src/embeddings.py:18-51 | a successful embedding run returns one vector per input text |
| IndexStore.IndexDb.DeleteChunks | indexer/src/vector_db.py:145-152 | the document's rows are removed and their number returned |
| IndexStore.IndexDb.InsertChunks | indexer/src/vector_db.py:154-210 | a validation error changes nothing; otherwise the corrected rows (`RowsToInsert`, see Findings) are inserted with skip-on-conflict and the chunk count is returned |
| IndexStore.IndexDb.UpdateIndexingHistory | indexer/src/vector_db.py:212-225 | the history maps the path to the new hash |
| IndexStore.IndexDb.DeleteIndexingHistory | indexer/src/vector_db.py:227-233 | the path's history record is removed |
| IndexStore.IndexDb.LogFileAction | indexer/src/vector_db.py:235-255 | ADD, MODIFY and DELETE append one log entry; any other action fails and logs nothing |
| IndexStore.IndexDb.GetIndexingHistory | indexer/src/vector_db.py:257-268 | the recorded hash, or none when the path has no record |
| IndexStore.IndexDb.GetIndexedFiles | indexer/src/vector_db.py:270-273 | every path with a history record |
| FileScanner.ShouldIncludeFile | indexer/src/file_scanner.py:44-75 | included iff a non-empty include list matches, no exclude pattern matches and the size is within the bounds (0 and 10485760 by default) |
| FileScanner.ExcludeNarrows | indexer/src/file_scanner.py:64-68 | an extra exclude pattern never admits a file |
| FileScanner.IncludeWidens | indexer/src/file_scanner.py:57-61 | an extra include pattern never rejects a file a non-empty list admitted |
| FileScanner.ScanFiles | indexer/src/file_scanner.py:15-41 | exactly the scanned files the filter admits, or the configuration error |
| Stats.CollectStats | indexer/src/stats.py:11-53 | chunk and document counts, token total, average, extremes (0 when empty), model and ceil(chunks / batch) calls |
| Stats.DocumentsAtMostChunks | indexer/src/stats.py:38-42 | there are no more documents than chunks, and at least one when there are chunks |
| Stats.AverageBetweenExtremes | indexer/src/stats.py:44-48 | the average lies between the minimum and the maximum |
| Stats.EstimateIsBatchCount | indexer/src/stats.py:50 | the call estimate is the number of embedding batches |
| Pipeline.ProcessFileSpec | indexer/src/pipeline.py:124-153 | MODIFY and DELETE first clear the document; DELETE removes the history record, logs with an empty hash and returns []; ADD and MODIFY store the chunks, record the hash, log once and return the chunks; a failure leaves history and log alone |
| Pipeline.ModifyReplacesDocument | indexer/src/pipeline.py:133-144 | after a MODIFY every row of the document is one of the new chunks, and every new chunk whose id no other document holds is stored as produced |
| Pipeline.ProcessFile | indexer/src/pipeline.py:124-153 | the sequence of store calls has the effect of the per-file specification |
| Pipeline.ProcessFiles | indexer/src/pipeline.py:91-121 | the files are processed one by one in some order; an empty set makes no store call; a success has visited every file |
| Pipeline.FilesLogOnce | indexer/src/pipeline.py:136-152 | a successful batch logs exactly one action per file, in processing order |
| Pipeline.FilesHistory | indexer/src/pipeline.py:147-150 | after a successful batch the history records the hash of every added or modified file, and has no record of a deleted file |
| Pipeline.FilesKeepRows | indexer/src/pipeline.py:91-99 | ADD never removes or changes an existing row |
| Pipeline.FilesDeleteDocs | indexer/src/pipeline.py:113-121 | DELETE returns [] and leaves no row of a deleted document |
| Pipeline.HistoryInSync | indexer/src/pipeline.py:46-59 | applying the three change sets to the history leaves exactly the current files, each with its current hash |
| Pipeline.RunOutcome | indexer/src/pipeline.py:56-59 | a successful run leaves the history in sync with the current files and logs one action per changed file |
| Pipeline.RunPipeline | indexer/src/pipeline.py:36-88 | a configuration error or no changes leave the store untouched; otherwise added, modified and deleted files are processed in that order; a success leaves the history in sync; statistics exist iff chunks were produced |

## Left out

- Language-model calls, prompts, the embedding API and the tokenizer are function parameters. Replies are either text or other content; the excerpting and prompt formatting of the grade and generate nodes are not modelled, apart from the citation and content of each context entry.
- MD5 (cache key) and SHA-256 (file hash) are parameters. So are Python's rendering of a float in the cache key and the rounding of similarity to four digits.
- psycopg2 is not modelled: no connection pool, cursors, commit/rollback or keepalives. Each store call is one map update, so, as in the source, a file is not processed atomically: a failure after the chunk deletion leaves the deletion in place.
- In the indexer, exceptions are failures of a `Result`. A failing embedding or insert ends the run with that failure instead of propagating a Python exception and closing the pool. The retry decorators are not modelled. In the agent only the retriever's search returns a `Result`; the graph's nodes cannot fail (see `Graph.RetrieveNode` below).
- Graph compilation and the async event runtime are left out. The graph is explicit transitions; the message reducer is append; the event stream is a finite list; timing and logging are not modelled.
- Floating point is modelled with reals. Cosine distance is a parameter, averaging is exact, and the start position of the overlap extraction is the exact integer floor of len·(T−n)/T, which approximates the source's float truncation.
- Regular expressions are recognised line by line: a heading is 1 to 6 '#' followed by whitespace on one line. A paragraph break is a line that is blank after stripping. `re.findall(r"\d+")` on a grading reply is runs of ASCII digits; other Unicode digits are not recognised.
- Upper-casing is ASCII only.
- Set iteration order is not modelled; the methods over sets return the order they chose as a ghost output, and the properties hold for every order.
- `document_loader.py` (`load_document`, `clean_text`) is not part of this model; loading a document is a parameter.
- Repository synchronisation (`git_sync.py`), the scheduler, the entry point, the debugger, the web services, the test harnesses and the settings modules are not part of this model.
- `get_recent_file_actions`, `get_file_chunks`, `clear_all_chunks`, `get_table_stats` and the clear methods of the indexer's store are not called by the modelled core and are left out.
- FileScanner.ScanFiles: directory walking and pathlib's glob matching are inputs (a set of relative paths and a match predicate), and a configuration that cannot be loaded or parsed is one error string. An empty configuration file, for which `yaml.safe_load` returns `None` so that `.get` raises `AttributeError`, is not represented: the configuration is given as parsed settings.
- IndexStore.IndexDb.GetIndexingHistory: returns the recorded hash only, not the whole record with its timestamps.
- IndexStore.IndexDb.GetIndexedFiles: returns a set of paths, not a list.
- Embeddings.SplitByTokens: requires a token limit above the 100-token margin, which the model's only limit (8191) meets.
- IndexStore.IndexDb.InsertChunks: requires a positive batch size, which the source's default (100) meets. It builds its rows with the corrected `RowsToInsert` (see Findings), so non-empty chunks with no embeddings are stored without embeddings and the count is returned, where the code as written raises `IndexError` (indexer/src/vector_db.py:169, 198-199). The pipeline never makes such a call (`Pipeline.PipelineRowsAsWritten`).
- Stats.CollectStats: requires a positive batch size; the source reads it from settings.
- Pipeline.RunPipeline: requires a positive embedding batch size, which comes from settings in the source.
- Embeddings.Embeddings: requires a positive batch size; in the source a batch size of 0 raises `ZeroDivisionError` when the batch count is computed (indexer/src/embeddings.py:36), which the model does not represent.
- Embeddings.GenerateEmbeddings: requires a positive batch size, for the same reason as `Embeddings.Embeddings`.
- Pipeline.ProcessFileSpec: requires a positive embedding batch size, for the same reason as `Embeddings.Embeddings`. It builds rows with the corrected `RowsToInsert`, which on its inputs equals the code as written (`Pipeline.PipelineRowsAsWritten`).
- Graph.RetrieveNode: the search and the language-model calls cannot fail. In the source a failed search raises `RuntimeError` (agent/src/vector_db.py:167-168), which no node and not the agent catch, so the run aborts; the model has no such path. The request the node builds (a count of 100, the threshold from settings, text and heading included) is folded into the `fetch` parameter, which returns the rows for a query.
- Graph.GradeSelect: the digit limit is the interpreter's default of 4300; a limit changed through `PYTHONINTMAXSTRDIGITS` or `sys.set_int_max_str_digits` is not modelled, and every digit of a run counts, leading zeros included.
- Graph.RewriteStep: `repr` of a query is modelled for ASCII (quote choice, backslash, quote and control-character escapes); non-ASCII characters that Python deems unprintable are kept as they are instead of being written as `\u` escapes.
- AgentVectorDb.Precedes: ties in similarity are broken by chunk id in code-point order; the database breaks them with its collation for `ORDER BY similarity DESC, chunk_id`, which can order non-ASCII or mixed-case ids differently.

## Findings

| source | as written | input that shows it | evidently intended | confidence | as-written member | corrected member |
|---|---|---|---|---|---|---|
| indexer/src/vector_db.py:157-199 | `has_embeddings = embeddings is not None` is always true because the default is `[]`, so the row loop indexes `embeddings[i]` | `insert_chunks([c], [])` | chunks without embeddings are stored with a null embedding | not executed | IndexStore.MissingEmbeddingsRejected | IndexStore.RowsToInsert |
