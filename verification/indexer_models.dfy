/** The indexer's records: a loaded document and one of its chunks. */
module IndexerModels {
  import opened Wrappers

  datatype Document = Document(id: string, filePath: string, docId: string, text: string)

  /** `chunkIndex` is the 0-based position of the chunk within its document. */
  datatype Chunk = Chunk(
    id: string,
    docId: string,
    chunkIndex: int,
    text: string,
    wordCount: int,
    heading: Option<string>)
}
