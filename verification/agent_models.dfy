/**
 * Request and response records of the retrieval service, with the field
 * constraints and defaults their validation enforces. Building a record with
 * a value outside its bounds is a validation error (`Failure`), not a record.
 */
module AgentModels {
  import opened Wrappers

  datatype ValidationError = ValidationError(field: string)

  datatype ChatRequest = ChatRequest(question: string, stream: bool)

  /** A chat request: a question of 1 to 2000 characters; `stream` defaults to false. */
  function NewChatRequest(question: string, stream: Option<bool>): (r: Result<ChatRequest, ValidationError>)
    ensures r.Success? <==> 1 <= |question| <= 2000
    ensures r.Success? ==> r.value.question == question
    ensures r.Success? ==> (r.value.stream <==> stream == Some(true))
  {
    if |question| < 1 || |question| > 2000 then Failure(ValidationError("question"))
    else Success(ChatRequest(question, stream.GetOr(false)))
  }

  const DefaultMatchThreshold: real := 0.7
  const DefaultMatchCount: int := 10

  datatype RetrieveRequest = RetrieveRequest(
    query: string,
    matchThreshold: real,
    matchCount: int,
    docIdFilter: Option<seq<string>>,
    includeText: bool,
    includeHeading: bool)

  ghost predicate ValidRetrieveRequest(r: RetrieveRequest) {
    && |r.query| >= 1
    && 0.0 <= r.matchThreshold <= 1.0
    && 1 <= r.matchCount <= 100
  }

  /**
   * A retrieval request. Absent fields take their defaults: threshold 0.7,
   * count 10, no document filter, text and heading included.
   */
  function NewRetrieveRequest(
    query: string,
    matchThreshold: Option<real>,
    matchCount: Option<int>,
    docIdFilter: Option<seq<string>>,
    includeText: Option<bool>,
    includeHeading: Option<bool>
  ): (r: Result<RetrieveRequest, ValidationError>)
    ensures r.Success? <==>
      && |query| >= 1
      && (matchThreshold.Some? ==> 0.0 <= matchThreshold.value <= 1.0)
      && (matchCount.Some? ==> 1 <= matchCount.value <= 100)
    ensures r.Success? ==> ValidRetrieveRequest(r.value) && r.value.query == query
    ensures r.Success? && matchThreshold.None? ==> r.value.matchThreshold == 0.7
    ensures r.Success? && matchCount.None? ==> r.value.matchCount == 10
    ensures r.Success? ==> r.value.docIdFilter == docIdFilter
    ensures r.Success? ==> (r.value.includeText <==> includeText != Some(false))
    ensures r.Success? ==> (r.value.includeHeading <==> includeHeading != Some(false))
  {
    var t := matchThreshold.GetOr(DefaultMatchThreshold);
    var c := matchCount.GetOr(DefaultMatchCount);
    if |query| < 1 then Failure(ValidationError("query"))
    else if t < 0.0 || t > 1.0 then Failure(ValidationError("match_threshold"))
    else if c < 1 || c > 100 then Failure(ValidationError("match_count"))
    else Success(RetrieveRequest(query, t, c, docIdFilter, includeText.GetOr(true), includeHeading.GetOr(true)))
  }

  datatype ChunkResult = ChunkResult(
    chunkId: string,
    docId: string,
    chunkIndex: Option<int>,
    heading: Option<string>,
    text: Option<string>,
    wordCount: int,
    similarity: real,
    rank: int)

  datatype RetrieveResponse = RetrieveResponse(
    query: string,
    matchThreshold: real,
    matchCount: int,
    results: seq<ChunkResult>)

  /** The documented meaning of `rank`: the 1-based position in the result list. */
  ghost predicate RanksArePositions(results: seq<ChunkResult>) {
    forall i | 0 <= i < |results| :: results[i].rank == i + 1
  }

  /** A response; `results` defaults to the empty list. */
  function NewRetrieveResponse(query: string, matchThreshold: real, matchCount: int, results: Option<seq<ChunkResult>>): (r: RetrieveResponse)
    ensures results.None? ==> r.results == []
    ensures results.Some? ==> r.results == results.value
    ensures r.query == query && r.matchThreshold == matchThreshold && r.matchCount == matchCount
  {
    RetrieveResponse(query, matchThreshold, matchCount, results.GetOr([]))
  }

  /** Any non-empty query with every other field left out makes a valid request. */
  lemma DefaultsAreValid(query: string)
    requires |query| >= 1
    ensures var r := NewRetrieveRequest(query, None, None, None, None, None);
      && r.Success?
      && r.value == RetrieveRequest(query, 0.7, 10, None, true, true)
  {
  }
}
