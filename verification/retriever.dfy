/**
 * The retriever: a request is answered from the result cache when its key
 * (query, threshold, count) is present; otherwise the query is embedded, the
 * similarity search runs, its rows become ranked results, and the response is
 * stored under that key. The embedding provider, the search, MD5, float
 * rendering and rounding are supplied as functions.
 */
module Retriever {
  import opened Wrappers
  import opened AgentModels
  import opened AgentVectorDb
  import Cache

  /** What the retriever calls out to. */
  datatype Services = Services(
    embed: string -> Vector,
    embedBatch: seq<string> -> seq<Vector>,
    search: (Vector, real, int) -> Result<seq<Match>, string>,
    md5: string -> string,
    floatRepr: real -> string,
    round4: real -> real)

  function CacheKey(svc: Services, request: RetrieveRequest): string {
    Cache.HashQuery(svc.md5, svc.floatRepr, request.query, request.matchThreshold, request.matchCount)
  }

  /** One search row as a ranked result, with text and heading kept only when requested. */
  function ToChunkResult(row: Match, rank: int, request: RetrieveRequest, round4: real -> real): (c: ChunkResult)
    ensures c.chunkId == row.chunkId && c.docId == row.docId && c.rank == rank
    ensures c.text == if request.includeText then Some(row.text) else None
    ensures c.heading == if request.includeHeading then row.heading else None
  {
    ChunkResult(
      row.chunkId, row.docId, Some(row.chunkIndex),
      if request.includeHeading then row.heading else None,
      if request.includeText then Some(row.text) else None,
      row.wordCount, round4(row.similarity), rank)
  }

  /** The results list: one result per row, in row order, ranked from 1. */
  method BuildResults(rows: seq<Match>, request: RetrieveRequest, round4: real -> real) returns (results: seq<ChunkResult>)
    ensures |results| == |rows|
    ensures forall i | 0 <= i < |rows| :: results[i] == ToChunkResult(rows[i], i + 1, request, round4)
    ensures RanksArePositions(results)
  {
    results := [];
    var rank := 1;
    while rank <= |rows|
      invariant 1 <= rank <= |rows| + 1
      invariant |results| == rank - 1
      invariant forall i | 0 <= i < rank - 1 :: results[i] == ToChunkResult(rows[i], i + 1, request, round4)
    {
      results := results + [ToChunkResult(rows[rank - 1], rank, request, round4)];
      rank := rank + 1;
    }
  }

  /** The response for `request` given the rows its search returned. */
  ghost function ResponseFor(request: RetrieveRequest, rows: seq<Match>, round4: real -> real): (r: RetrieveResponse)
    ensures r.query == request.query && r.matchThreshold == request.matchThreshold && r.matchCount == request.matchCount
    ensures |r.results| == |rows| && RanksArePositions(r.results)
  {
    RetrieveResponse(request.query, request.matchThreshold, request.matchCount,
      seq(|rows|, i requires 0 <= i < |rows| => ToChunkResult(rows[i], i + 1, request, round4)))
  }

  class Retriever {
    const resultCache: Cache.LRUCache<RetrieveResponse>

    ghost predicate Valid()
      reads this, resultCache
    {
      resultCache.Valid()
    }

    constructor()
      ensures Valid() && fresh(resultCache)
      ensures resultCache.capacity == 1000 && resultCache.cache == map[]
    {
      resultCache := new Cache.LRUCache(1000);
    }

    /**
     * `retrieve`. A hit returns the stored response whatever the include flags;
     * a miss searches without the document filter and stores what it builds. A
     * failed search raises, and the cache keeps what it had.
     */
    method Retrieve(request: RetrieveRequest, svc: Services) returns (r: Result<RetrieveResponse, string>)
      requires Valid()
      modifies resultCache
      ensures Valid()
      ensures var key := CacheKey(svc, request);
        key in old(resultCache.cache) ==>
          && r == Success(old(resultCache.cache)[key].value)
          && resultCache.cache == old(resultCache.cache)[key := Cache.Entry(old(resultCache.cache)[key].value, resultCache.accessCounter)]
      ensures var key := CacheKey(svc, request);
        var found := svc.search(svc.embed(request.query), request.matchThreshold, request.matchCount);
        key !in old(resultCache.cache) ==>
          && (found.Failure? ==> r == Failure(found.error) && resultCache.cache == old(resultCache.cache))
          && (found.Success? ==>
                && r == Success(ResponseFor(request, found.value, svc.round4))
                && key in resultCache.cache
                && resultCache.cache[key].value == r.value
                && resultCache.accessCounter == old(resultCache.accessCounter) + 1
                && Cache.PutOutcome(old(resultCache.cache), resultCache.cache, key, r.value, resultCache.accessCounter, resultCache.capacity))
    {
      var key := CacheKey(svc, request);
      var cached := resultCache.Get(key);
      if cached.Some? {
        return Success(cached.value);
      }
      var queryEmbedding := svc.embed(request.query);
      var found := svc.search(queryEmbedding, request.matchThreshold, request.matchCount);
      if found.Failure? {
        return Failure(found.error);
      }
      var results := BuildResults(found.value, request, svc.round4);
      var response := RetrieveResponse(request.query, request.matchThreshold, request.matchCount, results);
      assert response == ResponseFor(request, found.value, svc.round4);
      resultCache.Put(key, response);
      return Success(response);
    }

    /**
     * `retrieve_batch`: all queries embedded in one call, one search per
     * (request, embedding) pair, and no use of the cache. The pairing stops
     * at the shorter of the two lists, as `zip` does.
     */
    method RetrieveBatch(requests: seq<RetrieveRequest>, svc: Services) returns (r: Result<seq<RetrieveResponse>, string>)
      ensures requests == [] ==> r == Success([])
      ensures var embeddings := svc.embedBatch(seq(|requests|, i requires 0 <= i < |requests| => requests[i].query));
        var n := if |requests| < |embeddings| then |requests| else |embeddings|;
        requests != [] && r.Success? ==>
          && |r.value| == n
          && forall i | 0 <= i < n ::
               var found := svc.search(embeddings[i], requests[i].matchThreshold, requests[i].matchCount);
               found.Success? && r.value[i] == ResponseFor(requests[i], found.value, svc.round4)
      ensures var embeddings := svc.embedBatch(seq(|requests|, i requires 0 <= i < |requests| => requests[i].query));
        r.Failure? ==> exists i | 0 <= i < |requests| && i < |embeddings| ::
          && svc.search(embeddings[i], requests[i].matchThreshold, requests[i].matchCount) == Failure(r.error)
          && forall j | 0 <= j < i :: svc.search(embeddings[j], requests[j].matchThreshold, requests[j].matchCount).Success?
    {
      if requests == [] {
        return Success([]);
      }
      var queries := seq(|requests|, i requires 0 <= i < |requests| => requests[i].query);
      var embeddings := svc.embedBatch(queries);
      var n := if |requests| < |embeddings| then |requests| else |embeddings|;
      var responses: seq<RetrieveResponse> := [];
      var k := 0;
      while k < n
        invariant 0 <= k <= n
        invariant |responses| == k
        invariant forall i | 0 <= i < k ::
          var found := svc.search(embeddings[i], requests[i].matchThreshold, requests[i].matchCount);
          found.Success? && responses[i] == ResponseFor(requests[i], found.value, svc.round4)
      {
        var found := svc.search(embeddings[k], requests[k].matchThreshold, requests[k].matchCount);
        if found.Failure? {
          return Failure(found.error);
        }
        var results := BuildResults(found.value, requests[k], svc.round4);
        var response := RetrieveResponse(requests[k].query, requests[k].matchThreshold, requests[k].matchCount, results);
        assert response == ResponseFor(requests[k], found.value, svc.round4);
        responses := responses + [response];
        k := k + 1;
      }
      return Success(responses);
    }
  }
}
