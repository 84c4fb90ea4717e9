/**
 * The indexing pipeline: each changed file is processed against the store
 * (its document's chunks deleted for MODIFY and DELETE; for ADD and MODIFY
 * the document loaded, chunked, embedded and inserted; the history record
 * upserted or removed; one action logged), and a run processes the added,
 * then the modified, then the deleted files. File hashing, document loading,
 * the tokenizer, the embedding provider and token counting are supplied as
 * functions.
 */
module Pipeline {
  import opened Wrappers
  import opened IndexerModels
  import opened IndexStore
  import Chunker
  import E = Embeddings
  import ChangeDetector
  import FileScanner
  import Stats

  /** The three actions a file can be processed with. */
  datatype Action = Add | Modify | Delete {
    /** The action's name in the log. */
    function Name(): (n: string)
      ensures n in ValidActions
    {
      match this
      case Add => "ADD"
      case Modify => "MODIFY"
      case Delete => "DELETE"
    }
  }

  /** What the pipeline calls out to. */
  datatype Services = Services(
    fileHash: string -> string,
    loadDocument: string -> Document,
    tok: E.Tokenizer,
    embed: E.EmbedBatch,
    embeddingBatchSize: nat,
    countTokens: string -> nat,
    embeddingModel: string)

  /** The exceptions a run can end with. */
  datatype PipelineError =
    | ConfigError(message: string)
    | EmbeddingFailed(embeddingError: E.EmbeddingError)
    | InsertFailed(insertError: InsertError)

  /** The three tables of the store, as values. */
  datatype Tables = Tables(rows: map<string, Row>, history: map<string, string>, actions: seq<FileAction>)

  /** The tables after processing one file, and what processing returned. */
  datatype Step = Step(tables: Tables, result: Result<seq<Chunk>, PipelineError>)

  /** The batch size `_process_file` inserts with (the default of `insert_chunks`). */
  const InsertBatchSize: nat := 100

  function ChunkTexts(chunks: seq<Chunk>): (texts: seq<string>)
    ensures |texts| == |chunks| && forall i | 0 <= i < |chunks| :: texts[i] == chunks[i].text
  {
    seq(|chunks|, i requires 0 <= i < |chunks| => chunks[i].text)
  }

  function Snapshot(db: IndexDb): Tables
    reads db
  {
    Tables(db.rows, db.history, db.actions)
  }

  /** Every row of `before` is still in `after`, unchanged. */
  predicate RowsKept(before: map<string, Row>, after: map<string, Row>) {
    forall k | k in before :: k in after && after[k] == before[k]
  }

  /**
   * `_process_file` on the tables: MODIFY and DELETE clear the document's
   * chunks first (each store call commits on its own, so a later failure
   * leaves them cleared); DELETE then drops the history record; ADD and
   * MODIFY insert the document's chunks with their embeddings and record
   * the file's hash; every file that gets through logs one action.
   */
  function ProcessFileSpec(t: Tables, mdFile: string, action: Action, shouldDeleteChunks: bool, svc: Services): (s: Step)
    requires svc.embeddingBatchSize > 0
    ensures s.result.Success? ==>
      s.tables.history == (if action == Delete then t.history - {mdFile} else t.history[mdFile := svc.fileHash(mdFile)])
    ensures s.result.Success? ==>
      s.tables.actions == t.actions + [FileAction(mdFile, action.Name(), if action == Delete then "" else svc.fileHash(mdFile))]
    ensures s.result.Failure? ==> s.tables.history == t.history && s.tables.actions == t.actions
    ensures !shouldDeleteChunks ==> RowsKept(t.rows, s.tables.rows)
    ensures action == Delete ==>
      && s.result == Success([])
      && s.tables.rows == if shouldDeleteChunks then WithoutDoc(t.rows, ChangeDetector.GetDocId(mdFile)) else t.rows
    ensures action != Delete && s.result.Success? ==>
      s.result.value == Chunker.DocumentChunks(svc.loadDocument(ChangeDetector.GetDocId(mdFile)), Chunker.DefaultSizes)
  {
    var docId := ChangeDetector.GetDocId(mdFile);
    var cleared := if shouldDeleteChunks then t.(rows := WithoutDoc(t.rows, docId)) else t;
    if action == Delete then
      Step(cleared.(history := cleared.history - {mdFile}, actions := cleared.actions + [FileAction(mdFile, "DELETE", "")]), Success([]))
    else
      var contentHash := svc.fileHash(mdFile);
      var chunks := Chunker.DocumentChunks(svc.loadDocument(docId), Chunker.DefaultSizes);
      var embedded := E.Embeddings(ChunkTexts(chunks), svc.tok, svc.embeddingBatchSize, svc.embed);
      if embedded.Failure? then Step(cleared, Failure(EmbeddingFailed(embedded.error)))
      else
        var built := RowsToInsert(chunks, embedded.value);
        if built.Failure? then Step(cleared, Failure(InsertFailed(built.error)))
        else
          Step(Tables(InsertRows(cleared.rows, built.value),
                      cleared.history[mdFile := contentHash],
                      cleared.actions + [FileAction(mdFile, action.Name(), contentHash)]),
               Success(chunks))
  }

  /**
   * The embeddings the pipeline stores come one per chunk, so the rows it
   * builds are those `insert_chunks` builds as written: the corrected
   * handling of missing embeddings never comes into play here.
   */
  lemma PipelineRowsAsWritten(t: Tables, mdFile: string, svc: Services)
    requires svc.embeddingBatchSize > 0
    ensures var chunks := Chunker.DocumentChunks(svc.loadDocument(ChangeDetector.GetDocId(mdFile)), Chunker.DefaultSizes);
      var embedded := E.Embeddings(ChunkTexts(chunks), svc.tok, svc.embeddingBatchSize, svc.embed);
      embedded.Success? ==>
        && RowsAsWritten(chunks, embedded.value).Success?
        && RowsToInsert(chunks, embedded.value) == RowsAsWritten(chunks, embedded.value)
  {
    var chunks := Chunker.DocumentChunks(svc.loadDocument(ChangeDetector.GetDocId(mdFile)), Chunker.DefaultSizes);
    E.EmbeddingsCount(ChunkTexts(chunks), svc.tok, svc.embeddingBatchSize, svc.embed);
    var embedded := E.Embeddings(ChunkTexts(chunks), svc.tok, svc.embeddingBatchSize, svc.embed);
    if embedded.Success? {
      RowsAgreeWhenWritten(chunks, embedded.value);
    }
  }

  /**
   * After a successful MODIFY, every row of the file's document is one of
   * the chunks just produced: no chunk of the old version survives. Each new
   * chunk is stored as produced, with its embedding, unless another
   * document already holds a row under the same id.
   */
  lemma ModifyReplacesDocument(t: Tables, mdFile: string, svc: Services)
    requires svc.embeddingBatchSize > 0
    requires ProcessFileSpec(t, mdFile, Modify, true, svc).result.Success?
    ensures var s := ProcessFileSpec(t, mdFile, Modify, true, svc);
      var docId := ChangeDetector.GetDocId(mdFile);
      && (forall k | k in s.tables.rows && s.tables.rows[k].chunk.docId == docId :: s.tables.rows[k].chunk in s.result.value)
      && (forall i | 0 <= i < |s.result.value| && s.result.value[i].id !in WithoutDoc(t.rows, docId) ::
            s.result.value[i].id in s.tables.rows && s.tables.rows[s.result.value[i].id].chunk == s.result.value[i])
  {
    var s := ProcessFileSpec(t, mdFile, Modify, true, svc);
    var docId := ChangeDetector.GetDocId(mdFile);
    var cleared := WithoutDoc(t.rows, docId);
    var chunks := Chunker.DocumentChunks(svc.loadDocument(docId), Chunker.DefaultSizes);
    var embedded := E.Embeddings(ChunkTexts(chunks), svc.tok, svc.embeddingBatchSize, svc.embed);
    var built := RowsToInsert(chunks, embedded.value);
    assert s.tables.rows == InsertRows(cleared, built.value) && s.result.value == chunks;
    Chunker.DocumentChunksNumbered(svc.loadDocument(docId), Chunker.DefaultSizes);
    InsertedForDoc(cleared, built.value, chunks, docId);
  }

  /**
   * Inserting rows built from chunks with distinct ids into a table holding
   * no row of `docId`: the rows of `docId` afterwards are among the chunks,
   * and each chunk whose id was free is stored as given.
   */
  lemma InsertedForDoc(cleared: map<string, Row>, rows: seq<Row>, chunks: seq<Chunk>, docId: string)
    requires forall k | k in cleared :: cleared[k].chunk.docId != docId
    requires |rows| == |chunks| && forall i | 0 <= i < |chunks| :: rows[i].chunk == chunks[i]
    requires forall i, j | 0 <= i < j < |chunks| :: chunks[i].id != chunks[j].id
    ensures var t := InsertRows(cleared, rows);
      && (forall k | k in t && t[k].chunk.docId == docId :: t[k].chunk in chunks)
      && (forall i | 0 <= i < |chunks| && chunks[i].id !in cleared :: chunks[i].id in t && t[chunks[i].id].chunk == chunks[i])
  {
    var t := InsertRows(cleared, rows);
    forall k | k in t && t[k].chunk.docId == docId
      ensures t[k].chunk in chunks
    {
      assert k !in cleared;
      var i :| 0 <= i < |rows| && rows[i] == t[k];
      assert t[k].chunk == chunks[i];
    }
    forall i | 0 <= i < |chunks| && chunks[i].id !in cleared
      ensures chunks[i].id in t && t[chunks[i].id].chunk == chunks[i]
    {
      forall j | 0 <= j < |rows| && j != i
        ensures rows[j].chunk.id != rows[i].chunk.id
      {
        if j < i {
          assert chunks[j].id != chunks[i].id;
        } else {
          assert chunks[i].id != chunks[j].id;
        }
      }
      StoredWhenFree(cleared, rows, i);
    }
  }

  /** A row whose id is free and unique among the rows is stored as given. */
  lemma {:induction false} StoredWhenFree(table: map<string, Row>, rows: seq<Row>, i: nat)
    requires i < |rows| && rows[i].chunk.id !in table
    requires forall j | 0 <= j < |rows| && j != i :: rows[j].chunk.id != rows[i].chunk.id
    ensures rows[i].chunk.id in InsertRows(table, rows) && InsertRows(table, rows)[rows[i].chunk.id] == rows[i]
    decreases |rows|
  {
    if i == |rows| - 1 {
      LastStoredWhenFree(table, rows);
    } else {
      var init := rows[..|rows| - 1];
      UniqueInInit(rows, i);
      StoredWhenFree(table, init, i);
      KeptByLater(table, rows, rows[i].chunk.id);
    }
  }

  lemma UniqueInInit(rows: seq<Row>, i: nat)
    requires i < |rows| - 1
    requires forall j | 0 <= j < |rows| && j != i :: rows[j].chunk.id != rows[i].chunk.id
    ensures var init := rows[..|rows| - 1];
      init[i] == rows[i] && forall j | 0 <= j < |init| && j != i :: init[j].chunk.id != init[i].chunk.id
  {
  }

  lemma LastStoredWhenFree(table: map<string, Row>, rows: seq<Row>)
    requires rows != [] && rows[|rows| - 1].chunk.id !in table
    requires forall j | 0 <= j < |rows| - 1 :: rows[j].chunk.id != rows[|rows| - 1].chunk.id
    ensures InsertRows(table, rows)[rows[|rows| - 1].chunk.id] == rows[|rows| - 1]
  {
    var n := |rows| - 1;
    var init := rows[..n];
    assert forall j | 0 <= j < |init| :: init[j].chunk.id != rows[n].chunk.id by {
      forall j | 0 <= j < |init| ensures init[j].chunk.id != rows[n].chunk.id {
        assert init[j] == rows[j];
      }
    }
    IdNotAmong(init, rows[n].chunk.id);
  }

  lemma KeptByLater(table: map<string, Row>, rows: seq<Row>, id: string)
    requires rows != [] && id in InsertRows(table, rows[..|rows| - 1])
    ensures id in InsertRows(table, rows) && InsertRows(table, rows)[id] == InsertRows(table, rows[..|rows| - 1])[id]
  {
  }

  /** `_process_file`: the store calls in the order the source makes them. */
  method ProcessFile(db: IndexDb, mdFile: string, action: Action, shouldDeleteChunks: bool, svc: Services)
    returns (r: Result<seq<Chunk>, PipelineError>)
    requires db.Valid() && svc.embeddingBatchSize > 0
    modifies db
    ensures db.Valid()
    ensures Step(Snapshot(db), r) == ProcessFileSpec(old(Snapshot(db)), mdFile, action, shouldDeleteChunks, svc)
  {
    var docId := ChangeDetector.GetDocId(mdFile);
    if shouldDeleteChunks {
      var _ := db.DeleteChunks(docId);
    }
    var contentHash := "";
    var chunks: seq<Chunk> := [];
    if action != Delete {
      contentHash := svc.fileHash(mdFile);
      var document := svc.loadDocument(docId);
      chunks := Chunker.ChunkDocument(document, Chunker.DefaultSizes);
      var texts := ChunkTexts(chunks);
      var embeddings := E.GenerateEmbeddings(texts, svc.tok, svc.embeddingBatchSize, svc.embed);
      if embeddings.Failure? {
        return Failure(EmbeddingFailed(embeddings.error));
      }
      var inserted := db.InsertChunks(chunks, embeddings.value, InsertBatchSize);
      if inserted.Failure? {
        return Failure(InsertFailed(inserted.error));
      }
    }
    if action == Delete {
      db.DeleteIndexingHistory(mdFile);
    } else {
      db.UpdateIndexingHistory(mdFile, contentHash);
    }
    var _ := db.LogFileAction(mdFile, action.Name(), contentHash);
    return Success(chunks);
  }

  // ------------------------------------------------------------ sets of files

  /** The log entry processing `f` with `action` writes. */
  function LogEntry(f: string, action: Action, fileHash: string -> string): FileAction {
    FileAction(f, action.Name(), if action == Delete then "" else fileHash(f))
  }

  /** The log entries of the files of `order`, in that order. */
  function LogOf(order: seq<string>, action: Action, fileHash: string -> string): (log: seq<FileAction>)
    ensures |log| == |order|
    ensures forall k | 0 <= k < |order| :: log[k] == LogEntry(order[k], action, fileHash)
  {
    if order == [] then [] else LogOf(order[..|order| - 1], action, fileHash) + [LogEntry(order[|order| - 1], action, fileHash)]
  }

  function Elems(order: seq<string>): set<string> {
    set f | f in order
  }

  predicate Distinct(order: seq<string>) {
    forall i, j | 0 <= i < j < |order| :: order[i] != order[j]
  }

  lemma Snoc(order: seq<string>, f: string)
    ensures Elems(order + [f]) == Elems(order) + {f}
    ensures Distinct(order) && f !in Elems(order) ==> Distinct(order + [f])
  {
    var o := order + [f];
    if Distinct(order) && f !in Elems(order) {
      forall i, j | 0 <= i < j < |o| ensures o[i] != o[j] {
        if j == |order| {
          assert o[i] in Elems(order);
        } else {
          assert o[i] == order[i] && o[j] == order[j];
        }
      }
    }
  }

  /** The history after every file of `files` was processed with `action`. */
  function HistoryAfter(history: map<string, string>, files: set<string>, action: Action, fileHash: string -> string): map<string, string> {
    if action == Delete then history - files else history + map f | f in files :: fileHash(f)
  }

  /** No row belongs to the document of a file of `files`. */
  predicate DocsGone(rows: map<string, Row>, files: set<string>) {
    forall k, f | k in rows && f in files :: rows[k].chunk.docId != ChangeDetector.GetDocId(f)
  }

  /**
   * The files of `order` processed one after the other with the same action,
   * their chunks concatenated, up to the first file whose processing fails.
   */
  function FilesSpec(t: Tables, order: seq<string>, action: Action, shouldDeleteChunks: bool, svc: Services): Step
    requires svc.embeddingBatchSize > 0
  {
    if order == [] then Step(t, Success([]))
    else
      var prev := FilesSpec(t, order[..|order| - 1], action, shouldDeleteChunks, svc);
      if prev.result.Failure? then prev
      else
        var next := ProcessFileSpec(prev.tables, order[|order| - 1], action, shouldDeleteChunks, svc);
        Step(next.tables, if next.result.Failure? then Failure(next.result.error) else Success(prev.result.value + next.result.value))
  }

  /**
   * `process_added`, `process_modified` and `process_deleted`: every file of
   * the set processed with the same action, the chunks concatenated. An
   * empty set returns [] without a store call. `order` is the order Python's
   * set iteration visits the files in.
   */
  method ProcessFiles(db: IndexDb, mdFiles: set<string>, action: Action, shouldDeleteChunks: bool, svc: Services)
    returns (r: Result<seq<Chunk>, PipelineError>, ghost order: seq<string>)
    requires db.Valid() && svc.embeddingBatchSize > 0
    modifies db
    ensures db.Valid()
    ensures Distinct(order) && Elems(order) <= mdFiles
    ensures r.Success? ==> Elems(order) == mdFiles
    ensures mdFiles == {} ==> r == Success([]) && Snapshot(db) == old(Snapshot(db))
    ensures Step(Snapshot(db), r) == FilesSpec(old(Snapshot(db)), order, action, shouldDeleteChunks, svc)
  {
    order := [];
    if mdFiles == {} {
      return Success([]), order;
    }
    var files := SetOrder(mdFiles);
    var n;
    r, order, n := ProcessInOrder(db, files, action, shouldDeleteChunks, svc);
    PrefixOrder(files, n);
  }

  /** The loop of `process_*` over a fixed order of the files, stopping at the first failure. */
  method ProcessInOrder(db: IndexDb, files: seq<string>, action: Action, shouldDeleteChunks: bool, svc: Services)
    returns (r: Result<seq<Chunk>, PipelineError>, ghost order: seq<string>, n: nat)
    requires db.Valid() && svc.embeddingBatchSize > 0
    modifies db
    ensures db.Valid()
    ensures n <= |files| && order == files[..n]
    ensures r.Success? ==> n == |files|
    ensures Step(Snapshot(db), r) == FilesSpec(old(Snapshot(db)), order, action, shouldDeleteChunks, svc)
  {
    r, n := Success([]), 0;
    ghost var start := Snapshot(db);
    while n < |files| && r.Success?
      invariant db.Valid() && n <= |files|
      invariant Step(Snapshot(db), r) == FilesSpec(start, files[..n], action, shouldDeleteChunks, svc)
    {
      r := ProcessNext(db, start, files, n, r.value, action, shouldDeleteChunks, svc);
      n := n + 1;
    }
    order := files[..n];
  }

  /** The order a set's iteration visits its elements in: each once. */
  method SetOrder(s: set<string>) returns (order: seq<string>)
    ensures Distinct(order) && Elems(order) == s
  {
    order := [];
    var todo := s;
    while todo != {}
      invariant todo <= s
      invariant Distinct(order) && Elems(order) == s - todo
      decreases |todo|
    {
      var f :| f in todo;
      Snoc(order, f);
      order := order + [f];
      todo := todo - {f};
    }
  }

  lemma ElemsLast(order: seq<string>)
    requires order != []
    ensures Elems(order) == Elems(order[..|order| - 1]) + {order[|order| - 1]}
  {
    assert order == order[..|order| - 1] + [order[|order| - 1]];
    Snoc(order[..|order| - 1], order[|order| - 1]);
  }

  lemma PrefixOrder(order: seq<string>, n: nat)
    requires n <= |order| && Distinct(order)
    ensures Distinct(order[..n]) && Elems(order[..n]) <= Elems(order)
  {
  }

  /** The loop body of `process_*`: one more file processed, its chunks appended. */
  method ProcessNext(db: IndexDb, ghost start: Tables, files: seq<string>, n: nat, chunks: seq<Chunk>,
                     action: Action, shouldDeleteChunks: bool, svc: Services)
    returns (r: Result<seq<Chunk>, PipelineError>)
    requires db.Valid() && svc.embeddingBatchSize > 0 && n < |files|
    requires Step(Snapshot(db), Success(chunks)) == FilesSpec(start, files[..n], action, shouldDeleteChunks, svc)
    modifies db
    ensures db.Valid()
    ensures Step(Snapshot(db), r) == FilesSpec(start, files[..n + 1], action, shouldDeleteChunks, svc)
  {
    FilesSpecNext(start, files, n, action, shouldDeleteChunks, svc);
    var processed := ProcessFile(db, files[n], action, shouldDeleteChunks, svc);
    if processed.Failure? {
      return Failure(processed.error);
    }
    return Success(chunks + processed.value);
  }

  /** One more file on top of the steps so far. */
  function NextStep(prev: Step, mdFile: string, action: Action, shouldDeleteChunks: bool, svc: Services): Step
    requires svc.embeddingBatchSize > 0
  {
    if prev.result.Failure? then prev
    else
      var next := ProcessFileSpec(prev.tables, mdFile, action, shouldDeleteChunks, svc);
      Step(next.tables, if next.result.Failure? then Failure(next.result.error) else Success(prev.result.value + next.result.value))
  }

  lemma FilesSpecNext(t: Tables, files: seq<string>, n: nat, action: Action, shouldDeleteChunks: bool, svc: Services)
    requires svc.embeddingBatchSize > 0 && n < |files|
    ensures FilesSpec(t, files[..n + 1], action, shouldDeleteChunks, svc)
         == NextStep(FilesSpec(t, files[..n], action, shouldDeleteChunks, svc), files[n], action, shouldDeleteChunks, svc)
  {
    assert files[..n + 1][..n] == files[..n];
  }

  /** Each file processed logs exactly one entry, in processing order. */
  lemma {:induction false} FilesLogOnce(t: Tables, order: seq<string>, action: Action, shouldDeleteChunks: bool, svc: Services)
    requires svc.embeddingBatchSize > 0
    requires FilesSpec(t, order, action, shouldDeleteChunks, svc).result.Success?
    ensures FilesSpec(t, order, action, shouldDeleteChunks, svc).tables.actions == t.actions + LogOf(order, action, svc.fileHash)
    decreases |order|
  {
    if order != [] {
      var init := order[..|order| - 1];
      FilesLogOnce(t, init, action, shouldDeleteChunks, svc);
      assert LogOf(order, action, svc.fileHash) == LogOf(init, action, svc.fileHash) + [LogEntry(order[|order| - 1], action, svc.fileHash)];
    }
  }

  /**
   * After a successful run the history holds the hash of every ADD or
   * MODIFY file, and no record for a DELETE file; other records are as
   * they were.
   */
  lemma {:induction false} FilesHistory(t: Tables, order: seq<string>, action: Action, shouldDeleteChunks: bool, svc: Services)
    requires svc.embeddingBatchSize > 0
    requires FilesSpec(t, order, action, shouldDeleteChunks, svc).result.Success?
    ensures FilesSpec(t, order, action, shouldDeleteChunks, svc).tables.history == HistoryAfter(t.history, Elems(order), action, svc.fileHash)
    decreases |order|
  {
    if order == [] {
      HistoryAfterNone(t.history, action, svc.fileHash);
    } else {
      var init := order[..|order| - 1];
      var f := order[|order| - 1];
      ElemsLast(order);
      FilesHistory(t, init, action, shouldDeleteChunks, svc);
      HistoryAfterStep(t.history, Elems(init), f, action, svc.fileHash);
    }
  }

  lemma HistoryAfterNone(history: map<string, string>, action: Action, fileHash: string -> string)
    ensures HistoryAfter(history, Elems([]), action, fileHash) == history
  {
    assert Elems([]) == {};
  }

  lemma HistoryAfterStep(history: map<string, string>, done: set<string>, f: string, action: Action, fileHash: string -> string)
    ensures HistoryAfter(history, done + {f}, action, fileHash) ==
      if action == Delete then HistoryAfter(history, done, action, fileHash) - {f}
      else HistoryAfter(history, done, action, fileHash)[f := fileHash(f)]
  {
  }

  /** ADD never deletes a row, whether the run succeeds or not. */
  lemma {:induction false} FilesKeepRows(t: Tables, order: seq<string>, action: Action, svc: Services)
    requires svc.embeddingBatchSize > 0
    ensures RowsKept(t.rows, FilesSpec(t, order, action, false, svc).tables.rows)
    decreases |order|
  {
    if order != [] {
      FilesKeepRows(t, order[..|order| - 1], action, svc);
    }
  }

  /** DELETE leaves no row of a deleted file's document, and returns no chunks. */
  lemma {:induction false} FilesDeleteDocs(t: Tables, order: seq<string>, svc: Services)
    requires svc.embeddingBatchSize > 0
    ensures var s := FilesSpec(t, order, Delete, true, svc);
      s.result == Success([]) && DocsGone(s.tables.rows, Elems(order))
    decreases |order|
  {
    if order == [] {
      assert Elems(order) == {};
    } else {
      var init := order[..|order| - 1];
      var f := order[|order| - 1];
      ElemsLast(order);
      FilesDeleteDocs(t, init, svc);
      var prev := FilesSpec(t, init, Delete, true, svc);
      var next := ProcessFileSpec(prev.tables, f, Delete, true, svc);
      assert next.result == Success([]);
      assert prev.result.value + next.result.value == [];
      assert FilesSpec(t, order, Delete, true, svc) == Step(next.tables, Success([]));
      DocsGoneStep(prev.tables.rows, Elems(init), f);
    }
  }

  lemma DocsGoneStep(rows: map<string, Row>, done: set<string>, f: string)
    requires DocsGone(rows, done)
    ensures DocsGone(WithoutDoc(rows, ChangeDetector.GetDocId(f)), done + {f})
  {
  }

  // ------------------------------------------------------------ a whole run

  /** How a run that did not fail ended. */
  datatype Report = NoChanges | Completed(chunks: seq<Chunk>, stats: Option<Stats.Stats>)

  /** The history lookup `detect_changes` makes, as a function of the history table. */
  function HistoryLookup(history: map<string, string>): string -> Option<string> {
    f => if f in history then Some(history[f]) else None
  }

  /** The scanned files the configuration selects. */
  function Selected(scanned: set<string>, config: FileScanner.Config, matches: (string, string) -> bool, fileSize: string -> int): set<string> {
    set f | f in scanned && FileScanner.ShouldIncludeFile(f, config, matches, fileSize(f))
  }

  /** A history in step with `files`: one record per file, holding its hash. */
  function InSync(files: set<string>, fileHash: string -> string): map<string, string> {
    map f | f in files :: fileHash(f)
  }

  /**
   * The added, then the modified, then the deleted files processed, the
   * chunks concatenated, up to the first failure.
   */
  function RunSpec(t: Tables, added: seq<string>, modified: seq<string>, deleted: seq<string>, svc: Services): Step
    requires svc.embeddingBatchSize > 0
  {
    var a := FilesSpec(t, added, Add, false, svc);
    if a.result.Failure? then a
    else
      var m := FilesSpec(a.tables, modified, Modify, true, svc);
      if m.result.Failure? then m
      else
        var d := FilesSpec(m.tables, deleted, Delete, true, svc);
        if d.result.Failure? then d
        else Step(d.tables, Success(a.result.value + m.result.value + d.result.value))
  }

  /** The chunks a run's result carries, for comparison with `RunSpec`. */
  function RunChunks(r: Result<Report, PipelineError>): Result<seq<Chunk>, PipelineError> {
    match r
    case Failure(e) => Failure(e)
    case Success(NoChanges) => Success([])
    case Success(Completed(chunks, _)) => Success(chunks)
  }

  /**
   * Applying the three change sets to the history leaves exactly one record
   * per current file, holding its current hash: new and changed files get
   * theirs written, unchanged files already had it, and gone files lose theirs.
   */
  lemma HistoryInSync(current: set<string>, history: map<string, string>, fileHash: string -> string)
    ensures var c := ChangeDetector.ChangesOf(current, history.Keys, HistoryLookup(history), fileHash);
      HistoryAfter(HistoryAfter(HistoryAfter(history, c.added, Add, fileHash), c.modified, Modify, fileHash), c.deleted, Delete, fileHash)
        == InSync(current, fileHash)
  {
    var c := ChangeDetector.ChangesOf(current, history.Keys, HistoryLookup(history), fileHash);
    var h1 := HistoryAfter(history, c.added, Add, fileHash);
    var h2 := HistoryAfter(h1, c.modified, Modify, fileHash);
    var h3 := HistoryAfter(h2, c.deleted, Delete, fileHash);
    var target := InSync(current, fileHash);
    forall f | f in current
      ensures f in h3 && h3[f] == fileHash(f)
    {
      if f !in c.added && f !in c.modified {
        assert f in history.Keys;
        assert HistoryLookup(history)(f) == Some(history[f]);
        assert history[f] == fileHash(f);
      }
    }
    assert h3.Keys == target.Keys;
  }

  /**
   * A successful run over orders of the three change sets leaves the history
   * in step with the current files, and logs the added, then the modified,
   * then the deleted files, one entry each.
   */
  lemma RunOutcome(t: Tables, current: set<string>, added: seq<string>, modified: seq<string>, deleted: seq<string>, svc: Services)
    requires svc.embeddingBatchSize > 0
    requires var c := ChangeDetector.ChangesOf(current, t.history.Keys, HistoryLookup(t.history), svc.fileHash);
      Elems(added) == c.added && Elems(modified) == c.modified && Elems(deleted) == c.deleted
    requires RunSpec(t, added, modified, deleted, svc).result.Success?
    ensures RunSpec(t, added, modified, deleted, svc).tables.history == InSync(current, svc.fileHash)
    ensures RunSpec(t, added, modified, deleted, svc).tables.actions ==
      t.actions + LogOf(added, Add, svc.fileHash) + LogOf(modified, Modify, svc.fileHash) + LogOf(deleted, Delete, svc.fileHash)
  {
    var a := FilesSpec(t, added, Add, false, svc);
    var m := FilesSpec(a.tables, modified, Modify, true, svc);
    var d := FilesSpec(m.tables, deleted, Delete, true, svc);
    FilesHistory(t, added, Add, false, svc);
    FilesHistory(a.tables, modified, Modify, true, svc);
    FilesHistory(m.tables, deleted, Delete, true, svc);
    FilesLogOnce(t, added, Add, false, svc);
    FilesLogOnce(a.tables, modified, Modify, true, svc);
    FilesLogOnce(m.tables, deleted, Delete, true, svc);
    HistoryInSync(current, t.history, svc.fileHash);
  }

  /**
   * `main`: scan, detect the changes against the history, stop when there
   * are none, otherwise process the added, then the modified, then the
   * deleted files and collect statistics over the chunks produced.
   * Synchronising the repository is not part of this model. The ghost
   * outputs are the orders the three sets were visited in.
   */
  method RunPipeline(db: IndexDb, scanned: set<string>, config: Result<FileScanner.Config, string>,
                     matches: (string, string) -> bool, fileSize: string -> int, svc: Services)
    returns (r: Result<Report, PipelineError>, ghost added: seq<string>, ghost modified: seq<string>, ghost deleted: seq<string>)
    requires db.Valid() && svc.embeddingBatchSize > 0
    modifies db
    ensures db.Valid()
    ensures config.Failure? ==> r == Failure(ConfigError(config.error)) && Snapshot(db) == old(Snapshot(db))
    ensures config.Success? ==>
      var current := Selected(scanned, config.value, matches, fileSize);
      var c := ChangeDetector.ChangesOf(current, old(db.history).Keys, HistoryLookup(old(db.history)), svc.fileHash);
      && (c == ChangeDetector.Changes({}, {}, {}) ==> r == Success(NoChanges) && Snapshot(db) == old(Snapshot(db)))
      && (c != ChangeDetector.Changes({}, {}, {}) ==>
            && Distinct(added) && Distinct(modified) && Distinct(deleted)
            && Step(Snapshot(db), RunChunks(r)) == RunSpec(old(Snapshot(db)), added, modified, deleted, svc)
            && (r.Success? ==> r.value.Completed? && Elems(added) == c.added && Elems(modified) == c.modified && Elems(deleted) == c.deleted))
      && (r.Success? ==> db.history == InSync(current, svc.fileHash))
    ensures r.Success? && r.value.Completed? ==>
      && (r.value.stats.Some? <==> r.value.chunks != [])
      && (r.value.stats.Some? ==> r.value.stats.value.totalChunks == |r.value.chunks|)
  {
    added, modified, deleted := [], [], [];
    var scannedFiles := FileScanner.ScanFiles(scanned, config, matches, fileSize);
    if scannedFiles.Failure? {
      return Failure(ConfigError(scannedFiles.error)), added, modified, deleted;
    }
    var currentFiles := scannedFiles.value;
    var indexedFiles := db.GetIndexedFiles();
    var addedFiles, modifiedFiles, deletedFiles := ChangeDetector.DetectChanges(currentFiles, indexedFiles, HistoryLookup(db.history), svc.fileHash);
    if addedFiles == {} && modifiedFiles == {} && deletedFiles == {} {
      HistoryInSync(currentFiles, db.history, svc.fileHash);
      HistoryAfterNothing(db.history, svc.fileHash);
      return Success(NoChanges), added, modified, deleted;
    }
    ghost var start := Snapshot(db);
    var fromAdded, fromModified, fromDeleted;
    fromAdded, added := ProcessFiles(db, addedFiles, Add, false, svc);
    if fromAdded.Failure? {
      return Failure(fromAdded.error), added, modified, deleted;
    }
    fromModified, modified := ProcessFiles(db, modifiedFiles, Modify, true, svc);
    if fromModified.Failure? {
      return Failure(fromModified.error), added, modified, deleted;
    }
    fromDeleted, deleted := ProcessFiles(db, deletedFiles, Delete, true, svc);
    if fromDeleted.Failure? {
      return Failure(fromDeleted.error), added, modified, deleted;
    }
    var chunks := fromAdded.value + fromModified.value + fromDeleted.value;
    var stats: Option<Stats.Stats> := None;
    if chunks != [] {
      var collected := Stats.CollectStats(chunks, svc.countTokens, svc.embeddingModel, svc.embeddingBatchSize);
      stats := Some(collected);
    }
    RunOutcome(start, currentFiles, added, modified, deleted, svc);
    return Success(Completed(chunks, stats)), added, modified, deleted;
  }

  lemma HistoryAfterNothing(history: map<string, string>, fileHash: string -> string)
    ensures HistoryAfter(HistoryAfter(HistoryAfter(history, {}, Add, fileHash), {}, Modify, fileHash), {}, Delete, fileHash) == history
  {
  }
}
