/**
 * The indexer's side of the vector database: the chunk table keyed by chunk
 * id, the indexing history keyed by file path, and the log of file actions,
 * held as maps and a list that each operation updates. Connections,
 * cursors and commits are not modelled; every operation is one step.
 */
module IndexStore {
  import opened Wrappers
  import opened IndexerModels
  import opened Embeddings

  /** A row of the chunk table: the chunk's columns and its embedding, if one was written. */
  datatype Row = Row(chunk: Chunk, embedding: Option<Vector>)

  /** A row of the file action log. */
  datatype FileAction = FileAction(filePath: string, actionType: string, contentHash: string)

  /** The action types the log accepts. */
  const ValidActions: set<string> := {"ADD", "MODIFY", "DELETE"}

  datatype InsertError =
    | EmbeddingCountMismatch(embeddings: nat, chunks: nat)
    | EmbeddingIndexOutOfRange(index: nat)

  /** Every row is stored under its own chunk id. */
  predicate KeyedById(table: map<string, Row>) {
    forall k | k in table :: table[k].chunk.id == k
  }

  /** The ids of the rows that belong to `docId`. */
  function DocKeys(table: map<string, Row>, docId: string): (ks: set<string>)
    ensures ks <= table.Keys
    ensures forall k | k in table :: k in ks <==> table[k].chunk.docId == docId
  {
    set k | k in table && table[k].chunk.docId == docId
  }

  /** The table after `DELETE ... WHERE doc_id = docId`. */
  function WithoutDoc(table: map<string, Row>, docId: string): (t: map<string, Row>)
    ensures t.Keys == table.Keys - DocKeys(table, docId)
    ensures forall k | k in t :: t[k] == table[k] && t[k].chunk.docId != docId
  {
    map k | k in table && table[k].chunk.docId != docId :: table[k]
  }

  /**
   * The table after inserting `rows` one by one with `ON CONFLICT (chunk_id)
   * DO NOTHING`: a row whose id is already present is skipped.
   */
  function InsertRows(table: map<string, Row>, rows: seq<Row>): (t: map<string, Row>)
    ensures forall k | k in table :: k in t && t[k] == table[k]
    ensures t.Keys == table.Keys + set r | r in rows :: r.chunk.id
    ensures forall k | k in t && k !in table :: t[k] in rows
  {
    if rows == [] then table
    else
      var before := InsertRows(table, rows[..|rows| - 1]);
      var r := rows[|rows| - 1];
      assert rows == rows[..|rows| - 1] + [r];
      if r.chunk.id in before then before else before[r.chunk.id := r]
  }

  lemma {:induction false} InsertRowsAppend(table: map<string, Row>, a: seq<Row>, b: seq<Row>)
    ensures InsertRows(table, a + b) == InsertRows(InsertRows(table, a), b)
    decreases |b|
  {
    if b == [] {
      assert a + b == a;
    } else {
      assert (a + b)[..|a + b| - 1] == a + b[..|b| - 1];
      InsertRowsAppend(table, a, b[..|b| - 1]);
    }
  }

  /** Inserting rows stored under their own ids keeps every row under its own id. */
  lemma InsertRowsKeyed(table: map<string, Row>, rows: seq<Row>)
    requires KeyedById(table)
    ensures KeyedById(InsertRows(table, rows))
  {
    var t := InsertRows(table, rows);
    forall k | k in t
      ensures t[k].chunk.id == k
    {
      if k !in table {
        InsertedUnderOwnId(table, rows, k);
      }
    }
  }

  lemma {:induction false} InsertedUnderOwnId(table: map<string, Row>, rows: seq<Row>, k: string)
    requires k in InsertRows(table, rows) && k !in table
    ensures InsertRows(table, rows)[k].chunk.id == k
    decreases |rows|
  {
    var before := InsertRows(table, rows[..|rows| - 1]);
    if k in before {
      InsertedUnderOwnId(table, rows[..|rows| - 1], k);
    }
  }

  /** Inserting the same rows again changes nothing: every id is already present. */
  lemma InsertRowsTwice(table: map<string, Row>, rows: seq<Row>)
    ensures InsertRows(InsertRows(table, rows), rows) == InsertRows(table, rows)
  {
    var t := InsertRows(table, rows);
    InsertIntoPresent(t, rows);
  }

  lemma {:induction false} InsertIntoPresent(t: map<string, Row>, rows: seq<Row>)
    requires forall r | r in rows :: r.chunk.id in t
    ensures InsertRows(t, rows) == t
    decreases |rows|
  {
    if rows != [] {
      assert forall r | r in rows[..|rows| - 1] :: r in rows;
      InsertIntoPresent(t, rows[..|rows| - 1]);
      assert rows[|rows| - 1] in rows;
    }
  }

  lemma PrefixThenSlice<T>(s: seq<T>, i: nat, j: nat)
    requires i <= j <= |s|
    ensures s[..i] + s[i..j] == s[..j]
  {
  }

  /** No two rows share an id. */
  predicate DistinctIds(rows: seq<Row>) {
    forall i, j | 0 <= i < j < |rows| :: rows[i].chunk.id != rows[j].chunk.id
  }

  /** Rows with distinct ids that are all new are each stored as given. */
  lemma {:induction false} InsertFreshRows(table: map<string, Row>, rows: seq<Row>)
    requires DistinctIds(rows)
    requires forall i | 0 <= i < |rows| :: rows[i].chunk.id !in table
    ensures forall i | 0 <= i < |rows| ::
      rows[i].chunk.id in InsertRows(table, rows) && InsertRows(table, rows)[rows[i].chunk.id] == rows[i]
    decreases |rows|
  {
    if rows != [] {
      var n := |rows| - 1;
      var front := rows[..n];
      var last := rows[n];
      FrontFresh(table, rows);
      InsertFreshRows(table, front);
      var before := InsertRows(table, front);
      IdNotAmong(front, last.chunk.id);
      assert InsertRows(table, rows) == before[last.chunk.id := last];
      StoredAfterLast(before, rows, front);
    }
  }

  lemma StoredAfterLast(before: map<string, Row>, rows: seq<Row>, front: seq<Row>)
    requires rows != [] && front == rows[..|rows| - 1]
    requires forall i | 0 <= i < |front| :: front[i].chunk.id in before && before[front[i].chunk.id] == front[i]
    requires forall i | 0 <= i < |front| :: front[i].chunk.id != rows[|rows| - 1].chunk.id
    ensures var t := before[rows[|rows| - 1].chunk.id := rows[|rows| - 1]];
      forall i | 0 <= i < |rows| :: rows[i].chunk.id in t && t[rows[i].chunk.id] == rows[i]
  {
    var t := before[rows[|rows| - 1].chunk.id := rows[|rows| - 1]];
    forall i | 0 <= i < |rows|
      ensures rows[i].chunk.id in t && t[rows[i].chunk.id] == rows[i]
    {
      if i < |front| {
        assert front[i] == rows[i];
      }
    }
  }

  lemma FrontFresh(table: map<string, Row>, rows: seq<Row>)
    requires rows != [] && DistinctIds(rows)
    requires forall i | 0 <= i < |rows| :: rows[i].chunk.id !in table
    ensures var front := rows[..|rows| - 1];
      && DistinctIds(front)
      && (forall i | 0 <= i < |front| :: front[i].chunk.id !in table)
      && (forall i | 0 <= i < |front| :: front[i].chunk.id != rows[|rows| - 1].chunk.id)
  {
  }

  lemma IdNotAmong(rows: seq<Row>, id: string)
    requires forall i | 0 <= i < |rows| :: rows[i].chunk.id != id
    ensures id !in set r | r in rows :: r.chunk.id
  {
  }

  /**
   * The rows `insert_chunks` builds as written: `has_embeddings` is
   * `embeddings is not None`, which the default `[]` never is, so every row
   * reads `embeddings[i]`.
   */
  function RowsAsWritten(chunks: seq<Chunk>, embeddings: seq<Vector>): (r: Result<seq<Row>, InsertError>)
    ensures chunks == [] ==> r == Success([])
    ensures r.Success? ==> |r.value| == |chunks|
  {
    if chunks == [] then Success([])
    else if embeddings != [] && |embeddings| != |chunks| then Failure(EmbeddingCountMismatch(|embeddings|, |chunks|))
    else if |embeddings| < |chunks| then Failure(EmbeddingIndexOutOfRange(|embeddings|))
    else Success(seq(|chunks|, i requires 0 <= i < |chunks| => Row(chunks[i], Some(embeddings[i]))))
  }

  /** Chunks given without embeddings cannot be inserted as written. */
  lemma MissingEmbeddingsRejected(chunks: seq<Chunk>)
    requires chunks != []
    ensures RowsAsWritten(chunks, []) == Failure(EmbeddingIndexOutOfRange(0))
  {
  }

  /**
   * The rows `insert_chunks` is meant to build: with no embeddings the rows
   * carry none, with one per chunk each row carries its own.
   */
  function RowsToInsert(chunks: seq<Chunk>, embeddings: seq<Vector>): (r: Result<seq<Row>, InsertError>)
    ensures chunks == [] ==> r == Success([])
    ensures r.Failure? <==> chunks != [] && embeddings != [] && |embeddings| != |chunks|
    ensures r.Success? ==> |r.value| == |chunks| && forall i | 0 <= i < |chunks| ::
      r.value[i].chunk == chunks[i] && r.value[i].embedding == (if embeddings == [] then None else Some(embeddings[i]))
  {
    if chunks == [] then Success([])
    else if embeddings != [] && |embeddings| != |chunks| then Failure(EmbeddingCountMismatch(|embeddings|, |chunks|))
    else if embeddings == [] then Success(seq(|chunks|, i requires 0 <= i < |chunks| => Row(chunks[i], None)))
    else Success(seq(|chunks|, i requires 0 <= i < |chunks| => Row(chunks[i], Some(embeddings[i]))))
  }

  /** Where the written version succeeds, the intended one builds the same rows. */
  lemma RowsAgreeWhenWritten(chunks: seq<Chunk>, embeddings: seq<Vector>)
    requires RowsAsWritten(chunks, embeddings).Success?
    ensures RowsToInsert(chunks, embeddings) == RowsAsWritten(chunks, embeddings)
  {
  }

  class IndexDb {
    /** `rag.document_chunks`, keyed by `chunk_id`. */
    var rows: map<string, Row>
    /** `rag.indexing_history`: the content hash recorded per file path. */
    var history: map<string, string>
    /** `rag.file_actions`, oldest first. */
    var actions: seq<FileAction>

    ghost predicate Valid()
      reads this
    {
      KeyedById(rows)
    }

    constructor()
      ensures Valid()
      ensures rows == map[] && history == map[] && actions == []
    {
      rows := map[];
      history := map[];
      actions := [];
    }

    /** `delete_chunks`: removes every row of the document and returns how many there were. */
    method DeleteChunks(docId: string) returns (deletedCount: nat)
      requires Valid()
      modifies this
      ensures Valid()
      ensures rows == WithoutDoc(old(rows), docId)
      ensures deletedCount == |DocKeys(old(rows), docId)|
      ensures history == old(history) && actions == old(actions)
    {
      deletedCount := |DocKeys(rows, docId)|;
      rows := WithoutDoc(rows, docId);
    }

    /** One `execute_batch`: each row inserted in turn, skipped on a conflicting id. */
    method InsertBatch(batch: seq<Row>)
      modifies this
      ensures rows == InsertRows(old(rows), batch)
      ensures history == old(history) && actions == old(actions)
    {
      for j := 0 to |batch|
        invariant rows == InsertRows(old(rows), batch[..j])
        invariant history == old(history) && actions == old(actions)
      {
        assert batch[..j + 1][..j] == batch[..j];
        var row := batch[j];
        if row.chunk.id !in rows {
          rows := rows[row.chunk.id := row];
        }
      }
      assert batch[..|batch|] == batch;
    }

    /**
     * `insert_chunks` with the embedding check corrected: the rows are built,
     * then inserted in batches of `batchSize`; the count returned is the
     * number of chunks, whether or not their ids were already present.
     */
    method InsertChunks(chunks: seq<Chunk>, embeddings: seq<Vector>, batchSize: nat) returns (r: Result<nat, InsertError>)
      requires Valid() && batchSize > 0
      modifies this
      ensures Valid()
      ensures RowsToInsert(chunks, embeddings).Failure? ==> r == Failure(RowsToInsert(chunks, embeddings).error) && rows == old(rows)
      ensures RowsToInsert(chunks, embeddings).Success? ==>
        r == Success(|chunks|) && rows == InsertRows(old(rows), RowsToInsert(chunks, embeddings).value)
      ensures history == old(history) && actions == old(actions)
    {
      if chunks == [] {
        return Success(0);
      }
      var built := RowsToInsert(chunks, embeddings);
      if built.Failure? {
        return Failure(built.error);
      }
      var inserted := InsertInBatches(built.value, batchSize);
      return Success(inserted);
    }

    /** The batch loop of `insert_chunks`, counting the rows sent. */
    method InsertInBatches(chunkData: seq<Row>, batchSize: nat) returns (inserted: nat)
      requires Valid() && batchSize > 0
      modifies this
      ensures Valid()
      ensures inserted == |chunkData|
      ensures rows == InsertRows(old(rows), chunkData)
      ensures history == old(history) && actions == old(actions)
    {
      inserted := 0;
      ghost var start := rows;
      assert chunkData[..0] == [];
      while inserted < |chunkData|
        invariant inserted <= |chunkData|
        invariant Valid()
        invariant rows == InsertRows(start, chunkData[..inserted])
        invariant history == old(history) && actions == old(actions)
      {
        var end := if inserted + batchSize <= |chunkData| then inserted + batchSize else |chunkData|;
        var batch := chunkData[inserted..end];
        ghost var before := rows;
        InsertBatch(batch);
        InsertRowsKeyed(before, batch);
        InsertRowsAppend(start, chunkData[..inserted], batch);
        PrefixThenSlice(chunkData, inserted, end);
        assert rows == InsertRows(start, chunkData[..end]);
        inserted := end;
      }
      assert chunkData[..inserted] == chunkData;
    }

    /** `update_indexing_history`: the file's record now holds `contentHash`. */
    method UpdateIndexingHistory(filePath: string, contentHash: string)
      modifies this
      ensures history == old(history)[filePath := contentHash]
      ensures rows == old(rows) && actions == old(actions)
    {
      history := history[filePath := contentHash];
    }

    /** `delete_indexing_history`: the file has no record any more. */
    method DeleteIndexingHistory(filePath: string)
      modifies this
      ensures history == old(history) - {filePath}
      ensures rows == old(rows) && actions == old(actions)
    {
      history := history - {filePath};
    }

    /** `log_file_action`: appends to the log, or rejects an unknown action type. */
    method LogFileAction(filePath: string, actionType: string, contentHash: string) returns (r: Result<(), string>)
      modifies this
      ensures actionType in ValidActions ==> r.Success? && actions == old(actions) + [FileAction(filePath, actionType, contentHash)]
      ensures actionType !in ValidActions ==> r.Failure? && actions == old(actions)
      ensures rows == old(rows) && history == old(history)
    {
      if actionType !in ValidActions {
        return Failure("Invalid action_type: " + actionType);
      }
      actions := actions + [FileAction(filePath, actionType, contentHash)];
      return Success(());
    }

    /** `get_indexing_history`: the recorded hash, if the file has a record. */
    method GetIndexingHistory(filePath: string) returns (h: Option<string>)
      ensures h.Some? <==> filePath in history
      ensures h.Some? ==> h.value == history[filePath]
    {
      if filePath in history {
        return Some(history[filePath]);
      }
      return None;
    }

    /** `get_indexed_files`: every path that has a record. */
    method GetIndexedFiles() returns (files: set<string>)
      ensures files == history.Keys
    {
      files := history.Keys;
    }
  }
}
