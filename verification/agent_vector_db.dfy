/**
 * The similarity search of the retrieval service over the chunks table:
 * one row per chunk id among the rows that have an embedding, scored
 * `1 - cosine distance` against the query vector, kept when the score reaches
 * the threshold and the document passes the optional filter, ordered by score
 * (highest first, ties by chunk id) and cut to the requested count.
 */
module AgentVectorDb {
  import opened Wrappers
  import opened Text
  import opened Seqs

  type Vector = seq<real>

  /** A row of the chunks table as the search reads it. */
  datatype StoredChunk = StoredChunk(
    chunkId: string,
    docId: string,
    chunkIndex: int,
    heading: Option<string>,
    text: string,
    wordCount: int,
    embedding: Option<Vector>)

  /** A row of the search result. */
  datatype Match = Match(
    chunkId: string,
    docId: string,
    chunkIndex: int,
    heading: Option<string>,
    text: string,
    wordCount: int,
    similarity: real)

  function StoredId(c: StoredChunk): string { c.chunkId }
  function MatchId(m: Match): string { m.chunkId }

  /** The rows with an embedding (`WHERE embedding IS NOT NULL`), in table order. */
  function WithEmbedding(table: seq<StoredChunk>): (r: seq<StoredChunk>)
    ensures forall c | c in r :: c in table && c.embedding.Some?
    ensures forall c | c in table && c.embedding.Some? :: c in r
    ensures DistinctKeys(table, StoredId) ==> DistinctKeys(r, StoredId)
  {
    if table == [] then []
    else
      var p := table[..|table| - 1];
      var c := table[|table| - 1];
      assert table == p + [c];
      var q := WithEmbedding(p);
      assert DistinctKeys(table, StoredId) ==> DistinctKeys(p, StoredId);
      if c.embedding.None? then q
      else
        assert DistinctKeys(table, StoredId) ==> forall d | d in q :: d.chunkId != c.chunkId by {
          if DistinctKeys(table, StoredId) {
            forall d | d in q ensures d.chunkId != c.chunkId {
              var j :| 0 <= j < |p| && p[j] == d;
              assert table[j] == d;
            }
          }
        }
        assert forall i | 0 <= i < |q| :: q[i] in q;
        q + [c]
  }

  /** `1 - (embedding <=> query)`, with the cosine distance supplied by the database. */
  function Score(c: StoredChunk, query: Vector, distance: (Vector, Vector) -> real): (m: Match)
    requires c.embedding.Some?
  {
    Match(c.chunkId, c.docId, c.chunkIndex, c.heading, c.text, c.wordCount, 1.0 - distance(c.embedding.value, query))
  }

  /** The outer `WHERE`: the threshold, and the document filter when it is a non-empty list. */
  predicate Passes(m: Match, threshold: real, docIdFilter: Option<seq<string>>) {
    && m.similarity >= threshold
    && (docIdFilter.None? || docIdFilter.value == [] || m.docId in docIdFilter.value)
  }

  /** Scores every row and keeps those that pass, in row order. */
  function ScoreAndFilter(rows: seq<StoredChunk>, query: Vector, distance: (Vector, Vector) -> real,
                          threshold: real, docIdFilter: Option<seq<string>>): (r: seq<Match>)
    requires forall c | c in rows :: c.embedding.Some?
    ensures forall m | m in r :: Passes(m, threshold, docIdFilter)
    ensures forall m | m in r :: exists c | c in rows :: Score(c, query, distance) == m
    ensures forall c | c in rows && Passes(Score(c, query, distance), threshold, docIdFilter) :: Score(c, query, distance) in r
    ensures DistinctKeys(rows, StoredId) ==> DistinctKeys(r, MatchId)
  {
    if rows == [] then []
    else
      var p := rows[..|rows| - 1];
      var c := rows[|rows| - 1];
      assert rows == p + [c];
      var q := ScoreAndFilter(p, query, distance, threshold, docIdFilter);
      var m := Score(c, query, distance);
      assert DistinctKeys(rows, StoredId) ==> DistinctKeys(p, StoredId) by {
        if DistinctKeys(rows, StoredId) {
          DistinctInit(rows, StoredId);
        }
      }
      if !Passes(m, threshold, docIdFilter) then q
      else
        assert DistinctKeys(rows, StoredId) ==> DistinctKeys(q + [m], MatchId) by {
          if DistinctKeys(rows, StoredId) {
            DistinctInit(rows, StoredId);
            forall x | x in q ensures MatchId(x) != MatchId(m) {
              var d :| d in p && Score(d, query, distance) == x;
              assert StoredId(d) != StoredId(c);
            }
            DistinctSnoc(q, m, MatchId);
          }
        }
        assert forall i | 0 <= i < |q| :: q[i] in q;
        q + [m]
  }

  /** The rows the `ORDER BY ... LIMIT` stage chooses from. */
  function Candidates(table: seq<StoredChunk>, query: Vector, distance: (Vector, Vector) -> real,
                      threshold: real, docIdFilter: Option<seq<string>>): (r: seq<Match>)
    ensures DistinctKeys(r, MatchId)
  {
    ScoreAndFilter(DedupBy(WithEmbedding(table), StoredId), query, distance, threshold, docIdFilter)
  }

  /** `ORDER BY similarity DESC, chunk_id`: `a` may come before `b`. */
  predicate Precedes(a: Match, b: Match) {
    a.similarity > b.similarity || (a.similarity == b.similarity && !StrLt(b.chunkId, a.chunkId))
  }

  lemma PrecedesTotal(a: Match, b: Match)
    ensures Precedes(a, b) || Precedes(b, a)
  {
    if StrLt(a.chunkId, b.chunkId) && StrLt(b.chunkId, a.chunkId) {
      StrLtTransitive(a.chunkId, b.chunkId, a.chunkId);
      StrLtIrreflexive(a.chunkId);
    }
  }

  lemma PrecedesTransitive(a: Match, b: Match, c: Match)
    requires Precedes(a, b) && Precedes(b, c)
    ensures Precedes(a, c)
  {
    if a.similarity == c.similarity && StrLt(c.chunkId, a.chunkId) {
      if a.chunkId == b.chunkId {
      } else {
        StrLtTotal(a.chunkId, b.chunkId);
        StrLtTransitive(c.chunkId, a.chunkId, b.chunkId);
      }
    }
  }

  predicate InSearchOrder(s: seq<Match>) {
    forall i, j | 0 <= i < j < |s| :: Precedes(s[i], s[j])
  }

  function InsertMatch(t: seq<Match>, x: Match): (r: seq<Match>)
    requires InSearchOrder(t)
    ensures InSearchOrder(r)
    ensures multiset(r) == multiset(t) + multiset{x}
    ensures |r| == |t| + 1
    ensures forall z | z in r :: z in t || z == x
  {
    if t == [] then [x]
    else if Precedes(x, t[0]) then
      assert forall z | z in t :: Precedes(x, z) by {
        forall z | z in t ensures Precedes(x, z) {
          var j :| 0 <= j < |t| && t[j] == z;
          if j > 0 { PrecedesTransitive(x, t[0], t[j]); }
        }
      }
      ConsInSearchOrder(x, t);
      [x] + t
    else
      var q := InsertMatch(t[1..], x);
      assert t == [t[0]] + t[1..];
      PrecedesTotal(x, t[0]);
      assert forall z | z in q :: Precedes(t[0], z) by {
        forall z | z in q ensures Precedes(t[0], z) {
          if z != x {
            var j :| 0 <= j < |t[1..]| && t[1..][j] == z;
            assert t[j + 1] == z;
          }
        }
      }
      ConsInSearchOrder(t[0], q);
      [t[0]] + q
  }

  /** A match preceding every match of a sequence in search order may lead it. */
  lemma ConsInSearchOrder(a: Match, q: seq<Match>)
    requires InSearchOrder(q) && forall z | z in q :: Precedes(a, z)
    ensures InSearchOrder([a] + q)
  {
    var r := [a] + q;
    forall i, j | 0 <= i < j < |r| ensures Precedes(r[i], r[j]) {
      if i == 0 {
        assert r[j] in q;
      } else {
        assert r[i] == q[i - 1] && r[j] == q[j - 1];
      }
    }
  }

  function SortMatches(s: seq<Match>): (r: seq<Match>)
    ensures InSearchOrder(r)
    ensures multiset(r) == multiset(s)
    ensures |r| == |s|
  {
    if s == [] then []
    else
      assert s == [s[0]] + s[1..];
      InsertMatch(SortMatches(s[1..]), s[0])
  }

  /**
   * `search_similar_chunks`. A database error, including the one a negative
   * `LIMIT` raises, comes back as a `RuntimeError` message.
   */
  function SearchSimilarChunks(table: seq<StoredChunk>, query: Vector, distance: (Vector, Vector) -> real,
                               threshold: real, count: int, docIdFilter: Option<seq<string>>,
                               dbError: Option<string>): (r: Result<seq<Match>, string>)
    ensures r.Success? <==> dbError.None? && count >= 0
    ensures dbError.Some? ==> r == Failure("Query execution error: " + dbError.value)
    ensures r.Success? ==> |r.value| <= count
    ensures r.Success? ==> InSearchOrder(r.value) && DistinctKeys(r.value, MatchId)
    ensures r.Success? ==> forall m | m in r.value :: Passes(m, threshold, docIdFilter)
    ensures r.Success? ==> forall m | m in r.value ::
      exists c | c in table && c.embedding.Some? :: Score(c, query, distance) == m
  {
    if dbError.Some? then Failure("Query execution error: " + dbError.value)
    else if count < 0 then Failure("Query execution error: LIMIT must not be negative")
    else
      var cands := Candidates(table, query, distance, threshold, docIdFilter);
      var sorted := SortMatches(cands);
      var r := Take(sorted, count);
      assert forall m | m in r :: m in cands by {
        forall m | m in r ensures m in cands {
          var i :| 0 <= i < |r| && r[i] == m;
          assert sorted[i] in multiset(sorted);
        }
      }
      assert DistinctKeys(r, MatchId) by {
        forall i, j | 0 <= i < j < |r| ensures r[i].chunkId != r[j].chunkId {
          DistinctAfterSort(cands, sorted, i, j);
        }
      }
      Success(r)
  }

  lemma DistinctAfterSort(cands: seq<Match>, sorted: seq<Match>, i: int, j: int)
    requires DistinctKeys(cands, MatchId) && multiset(sorted) == multiset(cands)
    requires 0 <= i < j < |sorted|
    ensures sorted[i].chunkId != sorted[j].chunkId
  {
    if sorted[i].chunkId == sorted[j].chunkId {
      var a, b := sorted[i], sorted[j];
      assert a in multiset(cands) && b in multiset(cands);
      var ia :| 0 <= ia < |cands| && cands[ia] == a;
      var ib :| 0 <= ib < |cands| && cands[ib] == b;
      if a == b {
        TwoPositions(sorted, i, j);
        MultiplicityOfDistinct(cands, ia);
      }
    }
  }

  lemma TwoPositions(s: seq<Match>, i: int, j: int)
    requires 0 <= i < j < |s| && s[i] == s[j]
    ensures multiset(s)[s[i]] >= 2
  {
    assert s == s[..i] + [s[i]] + s[i + 1..j] + [s[j]] + s[j + 1..];
  }

  lemma {:induction false} MultiplicityOfDistinct(s: seq<Match>, k: int)
    requires DistinctKeys(s, MatchId) && 0 <= k < |s|
    ensures multiset(s)[s[k]] == 1
  {
    var x := s[k];
    assert s == s[..k] + [x] + s[k + 1..];
    assert x !in s[..k] by {
      forall y | y in s[..k] ensures y != x {
        var j :| 0 <= j < k && s[..k][j] == y;
        assert s[j] == y;
      }
    }
    var t := s[k + 1..];
    assert x !in t by {
      forall j | 0 <= j < |t| ensures t[j] != x {
        assert t[j] == s[k + 1 + j];
      }
    }
  }

  /**
   * Top-k: a candidate row that is not returned is preceded, in the search
   * order, by every returned row, and then the result is full.
   */
  lemma SearchIsTopK(table: seq<StoredChunk>, query: Vector, distance: (Vector, Vector) -> real,
                     threshold: real, count: nat, docIdFilter: Option<seq<string>>, m: Match)
    requires m in Candidates(table, query, distance, threshold, docIdFilter)
    ensures var r := SearchSimilarChunks(table, query, distance, threshold, count, docIdFilter, None).value;
      m in r || (|r| == count && forall x | x in r :: Precedes(x, m))
  {
    var cands := Candidates(table, query, distance, threshold, docIdFilter);
    var sorted := SortMatches(cands);
    var r := Take(sorted, count);
    assert m in multiset(sorted);
    var i :| 0 <= i < |sorted| && sorted[i] == m;
    if i < count {
      assert r[i] == m;
    } else {
      forall x | x in r ensures Precedes(x, m) {
        var j :| 0 <= j < |r| && r[j] == x;
        assert sorted[j] == x;
      }
    }
  }

  /**
   * With chunk ids unique in the table, as its primary key makes them, every
   * row with an embedding that reaches the threshold and passes the filter is
   * a candidate.
   */
  lemma CandidatesComplete(table: seq<StoredChunk>, query: Vector, distance: (Vector, Vector) -> real,
                           threshold: real, docIdFilter: Option<seq<string>>, c: StoredChunk)
    requires DistinctKeys(table, StoredId)
    requires c in table && c.embedding.Some? && Passes(Score(c, query, distance), threshold, docIdFilter)
    ensures Score(c, query, distance) in Candidates(table, query, distance, threshold, docIdFilter)
  {
    var rows := WithEmbedding(table);
    DedupOfDistinct(rows, StoredId);
  }
}
