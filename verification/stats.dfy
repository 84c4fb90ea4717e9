/**
 * Statistics over the chunks produced in one indexing run: documents,
 * chunks, token totals and extremes, and the number of embedding calls the
 * chunks need. The tokenizer is supplied as a function.
 */
module Stats {
  import opened IndexerModels
  import Embeddings

  datatype Stats = Stats(
    totalDocuments: nat,
    totalChunks: nat,
    totalTokens: nat,
    avgTokensPerChunk: real,
    minTokens: nat,
    maxTokens: nat,
    embeddingModel: string,
    estimatedApiCalls: int)

  function SumOf(xs: seq<nat>): nat {
    if xs == [] then 0 else SumOf(xs[..|xs| - 1]) + xs[|xs| - 1]
  }

  /** Python's `min` of a non-empty list. */
  function MinOf(xs: seq<nat>): (m: nat)
    requires xs != []
    ensures m in xs && forall k | 0 <= k < |xs| :: m <= xs[k]
  {
    if |xs| == 1 then xs[0]
    else
      var m := MinOf(xs[..|xs| - 1]);
      assert forall k | 0 <= k < |xs| - 1 :: xs[..|xs| - 1][k] == xs[k];
      if xs[|xs| - 1] < m then xs[|xs| - 1] else m
  }

  /** Python's `max` of a non-empty list. */
  function MaxOf(xs: seq<nat>): (m: nat)
    requires xs != []
    ensures m in xs && forall k | 0 <= k < |xs| :: xs[k] <= m
  {
    if |xs| == 1 then xs[0]
    else
      var m := MaxOf(xs[..|xs| - 1]);
      assert forall k | 0 <= k < |xs| - 1 :: xs[..|xs| - 1][k] == xs[k];
      if xs[|xs| - 1] > m then xs[|xs| - 1] else m
  }

  /** The mean of `n` values summing to `total`, or 0.0 for no values. */
  function Mean(total: nat, n: nat): real {
    if n > 0 then total as real / n as real else 0.0
  }

  /** `(n + size - 1) // size`: the number of batches of `size` that `n` items make. */
  function BatchCount(n: nat, size: int): int
    requires size > 0
  {
    (n + size - 1) / size
  }

  /** The token count of every chunk's text, in chunk order. */
  function TokenCounts(chunks: seq<Chunk>, countTokens: string -> nat): (ts: seq<nat>)
    ensures |ts| == |chunks| && forall k | 0 <= k < |chunks| :: ts[k] == countTokens(chunks[k].text)
  {
    if chunks == [] then [] else TokenCounts(chunks[..|chunks| - 1], countTokens) + [countTokens(chunks[|chunks| - 1].text)]
  }

  /** The distinct document ids among the chunks. */
  function DocIds(chunks: seq<Chunk>): set<string> {
    set c | c in chunks :: c.docId
  }

  /**
   * `collect_stats`: one pass accumulating the token total, the per-chunk
   * counts and the set of document ids, then the summary.
   */
  method CollectStats(chunks: seq<Chunk>, countTokens: string -> nat, embeddingModel: string, batchSize: int) returns (stats: Stats)
    requires batchSize > 0
    ensures stats.totalChunks == |chunks|
    ensures stats.totalDocuments == |DocIds(chunks)|
    ensures stats.totalTokens == SumOf(TokenCounts(chunks, countTokens))
    ensures stats.avgTokensPerChunk == Mean(stats.totalTokens, |chunks|)
    ensures chunks == [] ==> stats.minTokens == 0 && stats.maxTokens == 0
    ensures chunks != [] ==> stats.minTokens == MinOf(TokenCounts(chunks, countTokens))
    ensures chunks != [] ==> stats.maxTokens == MaxOf(TokenCounts(chunks, countTokens))
    ensures stats.embeddingModel == embeddingModel
    ensures stats.estimatedApiCalls == BatchCount(|chunks|, batchSize)
  {
    var totalChunks := |chunks|;
    var totalTokens, chunkTokenCounts, docIdsSet := Accumulate(chunks, countTokens);
    stats := Stats(
      |docIdsSet|,
      totalChunks,
      totalTokens,
      Mean(totalTokens, totalChunks),
      if chunkTokenCounts != [] then MinOf(chunkTokenCounts) else 0,
      if chunkTokenCounts != [] then MaxOf(chunkTokenCounts) else 0,
      embeddingModel,
      BatchCount(totalChunks, batchSize));
  }

  /** The loop of `collect_stats` over the chunks. */
  method Accumulate(chunks: seq<Chunk>, countTokens: string -> nat)
    returns (totalTokens: nat, chunkTokenCounts: seq<nat>, docIdsSet: set<string>)
    ensures chunkTokenCounts == TokenCounts(chunks, countTokens)
    ensures totalTokens == SumOf(chunkTokenCounts)
    ensures docIdsSet == DocIds(chunks)
  {
    totalTokens := 0;
    chunkTokenCounts := [];
    docIdsSet := {};
    for i := 0 to |chunks|
      invariant chunkTokenCounts == TokenCounts(chunks[..i], countTokens)
      invariant totalTokens == SumOf(chunkTokenCounts)
      invariant docIdsSet == DocIds(chunks[..i])
    {
      var chunk := chunks[i];
      var tokens := countTokens(chunk.text);
      totalTokens := totalTokens + tokens;
      assert chunkTokenCounts + [tokens] == TokenCounts(chunks[..i + 1], countTokens);
      chunkTokenCounts := chunkTokenCounts + [tokens];
      DocIdsSnoc(chunks, i);
      docIdsSet := docIdsSet + {chunk.docId};
    }
    assert chunks[..|chunks|] == chunks;
  }

  lemma DocIdsSnoc(chunks: seq<Chunk>, i: nat)
    requires i < |chunks|
    ensures DocIds(chunks[..i + 1]) == DocIds(chunks[..i]) + {chunks[i].docId}
  {
    assert chunks[..i + 1] == chunks[..i] + [chunks[i]];
  }

  /** Every chunk belongs to a document, and documents are never counted twice. */
  lemma DocumentsAtMostChunks(chunks: seq<Chunk>)
    ensures |DocIds(chunks)| <= |chunks|
    ensures chunks != [] ==> |DocIds(chunks)| >= 1
  {
    if chunks != [] {
      var n := |chunks| - 1;
      DocumentsAtMostChunks(chunks[..n]);
      DocIdsSnoc(chunks, n);
      assert chunks[..n + 1] == chunks;
    }
  }

  /** The minimum, the average and the maximum are in order. */
  lemma AverageBetweenExtremes(ts: seq<nat>)
    requires ts != []
    ensures MinOf(ts) as real <= Mean(SumOf(ts), |ts|) <= MaxOf(ts) as real
  {
    SumBounds(ts, MinOf(ts), MaxOf(ts));
    MeanBounds(MinOf(ts), SumOf(ts), MaxOf(ts), |ts|);
  }

  lemma MeanBounds(lo: nat, total: nat, hi: nat, n: nat)
    requires n > 0 && lo * n <= total <= hi * n
    ensures lo as real <= total as real / n as real <= hi as real
  {
    var l, t, h, m := lo as real, total as real, hi as real, n as real;
    CastProduct(lo, n);
    CastProduct(hi, n);
    assert l * m <= t <= h * m;
    var q := t / m;
    assert q * m == t;
    assert (q - l) * m >= 0.0;
    assert (h - q) * m >= 0.0;
  }

  lemma CastProduct(a: nat, b: nat)
    ensures (a * b) as real == (a as real) * (b as real)
  {
  }

  lemma {:induction false} SumBounds(xs: seq<nat>, lo: nat, hi: nat)
    requires forall k | 0 <= k < |xs| :: lo <= xs[k] <= hi
    ensures lo * |xs| <= SumOf(xs) <= hi * |xs|
  {
    if xs != [] {
      var n := |xs| - 1;
      SumBounds(xs[..n], lo, hi);
      assert lo * |xs| == lo * n + lo && hi * |xs| == hi * n + hi;
    }
  }

  /** The estimate is the number of batches of `batchSize` the chunk texts make. */
  lemma EstimateIsBatchCount(chunks: seq<Chunk>, batchSize: nat)
    requires batchSize > 0
    ensures BatchCount(|chunks|, batchSize) == |Embeddings.Slices(chunks, batchSize)|
  {
    Embeddings.SlicesCount(chunks, batchSize);
  }
}
