/**
 * Embedding generation with token validation. A text whose token count is
 * within the per-input limit is embedded as it is; a longer one is cut into
 * consecutive token slices, each decoded and embedded on its own, and the
 * vectors of its pieces are averaged back into one. The tokenizer and the
 * embedding provider are supplied as functions.
 */
module Embeddings {
  import opened Wrappers

  type Vector = seq<real>

  /** The per-input token limit of the embedding model. */
  const MaxTokensPerInput: nat := 8191

  /** The safety margin kept below the limit when a text is cut. */
  const SplitMargin: nat := 100

  datatype Tokenizer = Tokenizer(encode: string -> seq<int>, decode: seq<int> -> string)

  /** Consecutive slices of `size` elements; the last one may be shorter. */
  function Slices<T>(s: seq<T>, size: nat): (r: seq<seq<T>>)
    requires size > 0
    ensures forall k | 0 <= k < |r| :: 0 < |r[k]| <= size
    ensures forall k | 0 <= k < |r| - 1 :: |r[k]| == size
    decreases |s|
  {
    if s == [] then []
    else if |s| <= size then [s]
    else [s[..size]] + Slices(s[size..], size)
  }

  function Concat<T>(ss: seq<seq<T>>): seq<T> {
    if ss == [] then [] else ss[0] + Concat(ss[1..])
  }

  /** Concatenating the slices gives back the sequence. */
  lemma {:induction false} SlicesConcat<T>(s: seq<T>, size: nat)
    requires size > 0
    ensures Concat(Slices(s, size)) == s
    decreases |s|
  {
    if s != [] && |s| > size {
      var r := Slices(s, size);
      assert r[1..] == Slices(s[size..], size);
      SlicesConcat(s[size..], size);
      assert s == s[..size] + s[size..];
    }
  }

  /** There are ceil(|s| / size) slices. */
  lemma {:induction false} SlicesCount<T>(s: seq<T>, size: nat)
    requires size > 0
    ensures |Slices(s, size)| == (|s| + size - 1) / size
    decreases |s|
  {
    if s == [] {
      DivUnique(size - 1, size, 0, size - 1);
    } else if |s| <= size {
      DivUnique(|s| + size - 1, size, 1, |s| - 1);
    } else {
      SlicesCount(s[size..], size);
      var a := |s| - size + size - 1;
      DivUnique(a, size, a / size, a % size);
      DivUnique(a + size, size, a / size + 1, a % size);
    }
  }

  lemma DivUnique(x: int, d: int, q: int, r: int)
    requires d > 0 && 0 <= r < d && x == q * d + r
    ensures x / d == q
  {
    var q', r' := x / d, x % d;
    assert x == q' * d + r';
    assert (q - q') * d == r' - r;
    if q > q' {
      AtLeastOnce(q - q', d);
    } else if q < q' {
      assert (q' - q) * d == r - r';
      AtLeastOnce(q' - q, d);
    }
  }

  lemma AtLeastOnce(k: int, d: int)
    requires k >= 1 && d > 0
    ensures k * d >= d
  {
    assert k * d == (k - 1) * d + d;
  }

  /** The slices of `s[i..]`: the one starting at `i`, then those of the rest. */
  lemma SlicesFrom<T>(s: seq<T>, i: nat, size: nat)
    requires size > 0 && i < |s|
    ensures var end := if i + size <= |s| then i + size else |s|;
      Slices(s[i..], size) == [s[i..end]] + Slices(s[end..], size)
  {
    var t := s[i..];
    if |t| <= size {
      assert s[|s|..] == [];
      assert s[i..|s|] == t;
    } else {
      assert t[..size] == s[i..i + size];
      assert t[size..] == s[i + size..];
    }
  }

  /**
   * `_split_by_tokens`: the tokens cut into slices of `maxTokens - 100`, each
   * decoded back to text.
   */
  method SplitByTokens(tokens: seq<int>, decode: seq<int> -> string, maxTokens: nat) returns (chunks: seq<string>)
    requires maxTokens > SplitMargin
    ensures chunks == Decoded(Slices(tokens, maxTokens - SplitMargin), decode)
  {
    chunks := [];
    var chunkSize := maxTokens - SplitMargin;
    var i := 0;
    while i < |tokens|
      invariant 0 <= i <= |tokens|
      invariant chunks + Decoded(Slices(tokens[i..], chunkSize), decode) == Decoded(Slices(tokens, chunkSize), decode)
    {
      var end := if i + chunkSize <= |tokens| then i + chunkSize else |tokens|;
      var chunkTokens := tokens[i..end];
      SlicesFrom(tokens, i, chunkSize);
      ghost var rest := Decoded(Slices(tokens[end..], chunkSize), decode);
      DecodedAppend([chunkTokens], Slices(tokens[end..], chunkSize), decode);
      assert Decoded([chunkTokens], decode) == [decode(chunkTokens)];
      Reassociate(chunks, decode(chunkTokens), rest);
      chunks := chunks + [decode(chunkTokens)];
      i := end;
    }
    assert tokens[|tokens|..] == [];
  }

  lemma Reassociate(done: seq<string>, x: string, rest: seq<string>)
    ensures done + ([x] + rest) == (done + [x]) + rest
  {
  }

  lemma DecodedAppend(a: seq<seq<int>>, b: seq<seq<int>>, decode: seq<int> -> string)
    ensures Decoded(a + b, decode) == Decoded(a, decode) + Decoded(b, decode)
  {
    var l, r := Decoded(a + b, decode), Decoded(a, decode) + Decoded(b, decode);
    forall k | 0 <= k < |l| ensures l[k] == r[k] {
      if k < |a| {
        assert (a + b)[k] == a[k];
      } else {
        assert (a + b)[k] == b[k - |a|];
      }
    }
    assert l == r;
  }

  function Decoded(pieces: seq<seq<int>>, decode: seq<int> -> string): (r: seq<string>)
    ensures |r| == |pieces|
    ensures forall k | 0 <= k < |r| :: r[k] == decode(pieces[k])
  {
    if pieces == [] then [] else [decode(pieces[0])] + Decoded(pieces[1..], decode)
  }

  predicate WithinLimit(text: string, tok: Tokenizer) {
    |tok.encode(text)| <= MaxTokensPerInput
  }

  /** What one input text becomes: itself when within the limit, its decoded token slices otherwise. */
  function PiecesOf(text: string, tok: Tokenizer): (r: seq<string>)
    ensures WithinLimit(text, tok) ==> r == [text]
    ensures !WithinLimit(text, tok) ==>
      r == Decoded(Slices(tok.encode(text), MaxTokensPerInput - SplitMargin), tok.decode)
    ensures |r| >= 1
    ensures |r| == 1 <==> WithinLimit(text, tok)
  {
    if WithinLimit(text, tok) then [text]
    else
      var tokens := tok.encode(text);
      assert |Slices(tokens, MaxTokensPerInput - SplitMargin)| >= 2 by {
        var size := MaxTokensPerInput - SplitMargin;
        assert Slices(tokens, size) == [tokens[..size]] + Slices(tokens[size..], size);
      }
      Decoded(Slices(tokens, MaxTokensPerInput - SplitMargin), tok.decode)
  }

  /** The validated texts: every input's pieces, in input order. */
  function ValidatedTexts(texts: seq<string>, tok: Tokenizer): (r: seq<string>)
    ensures |r| >= |texts|
  {
    if texts == [] then []
    else ValidatedTexts(texts[..|texts| - 1], tok) + PiecesOf(texts[|texts| - 1], tok)
  }

  /** The original index of every validated text. */
  function OriginalIndices(texts: seq<string>, tok: Tokenizer): (r: seq<nat>)
    ensures |r| == |ValidatedTexts(texts, tok)|
  {
    if texts == [] then []
    else
      var n := |texts| - 1;
      OriginalIndices(texts[..n], tok) + Repeat(n, |PiecesOf(texts[n], tok)|)
  }

  /**
   * `_validate_and_split_texts`: encodes every text and appends either the
   * text or its pieces, recording the original index of each.
   */
  method ValidateAndSplitTexts(texts: seq<string>, tok: Tokenizer) returns (validatedTexts: seq<string>, originalIndices: seq<nat>)
    ensures validatedTexts == ValidatedTexts(texts, tok)
    ensures originalIndices == OriginalIndices(texts, tok)
  {
    validatedTexts := [];
    originalIndices := [];
    for idx := 0 to |texts|
      invariant validatedTexts == ValidatedTexts(texts[..idx], tok)
      invariant originalIndices == OriginalIndices(texts[..idx], tok)
    {
      var text := texts[idx];
      assert texts[..idx + 1][..idx] == texts[..idx];
      var tokens := tok.encode(text);
      if |tokens| <= MaxTokensPerInput {
        validatedTexts := validatedTexts + [text];
        originalIndices := originalIndices + [idx];
        assert Repeat(idx, 1) == [idx];
      } else {
        var splitTexts := SplitByTokens(tokens, tok.decode, MaxTokensPerInput);
        validatedTexts := validatedTexts + splitTexts;
        originalIndices := originalIndices + Repeat(idx, |splitTexts|);
      }
    }
    assert texts[..|texts|] == texts;
  }

  /** Original indices stay below the text count, never decrease, and cover every text. */
  predicate IndicesCover(ix: seq<nat>, n: nat) {
    && (forall j | 0 <= j < |ix| :: ix[j] < n)
    && (forall j | 0 < j < |ix| :: ix[j - 1] <= ix[j])
    && (forall i | 0 <= i < n :: i in ix)
  }

  lemma {:induction false} IndicesInOrder(texts: seq<string>, tok: Tokenizer)
    ensures IndicesCover(OriginalIndices(texts, tok), |texts|)
  {
    if texts != [] {
      var n := |texts| - 1;
      IndicesInOrder(texts[..n], tok);
      CoverSnoc(OriginalIndices(texts[..n], tok), n, |PiecesOf(texts[n], tok)|);
    }
  }

  /** A non-empty block tagged with the next index extends a cover by that index. */
  lemma CoverSnoc(pre: seq<nat>, n: nat, m: nat)
    requires IndicesCover(pre, n) && m >= 1
    ensures IndicesCover(pre + Repeat(n, m), n + 1)
  {
    var ix := pre + Repeat(n, m);
    assert ix[|pre|] == n;
    forall i | 0 <= i < n + 1
      ensures i in ix
    {
      if i < n {
        assert i in pre;
        var j :| 0 <= j < |pre| && pre[j] == i;
        assert ix[j] == i;
      }
    }
  }

  /** Exactly as many pieces as texts means no text was split. */
  lemma {:induction false} SameCountIffNoSplit(texts: seq<string>, tok: Tokenizer)
    ensures |ValidatedTexts(texts, tok)| == |texts| <==> NoneSplit(texts, tok)
  {
    if texts != [] {
      var n := |texts| - 1;
      SameCountIffNoSplit(texts[..n], tok);
      assert |ValidatedTexts(texts, tok)| == |ValidatedTexts(texts[..n], tok)| + |PiecesOf(texts[n], tok)|;
      NoneSplitSnoc(texts, tok);
    }
  }

  predicate NoneSplit(texts: seq<string>, tok: Tokenizer) {
    forall i | 0 <= i < |texts| :: WithinLimit(texts[i], tok)
  }

  lemma NoneSplitSnoc(texts: seq<string>, tok: Tokenizer)
    requires texts != []
    ensures NoneSplit(texts, tok) <==> NoneSplit(texts[..|texts| - 1], tok) && WithinLimit(texts[|texts| - 1], tok)
  {
    var n := |texts| - 1;
    assert forall i | 0 <= i < n :: texts[..n][i] == texts[i];
  }

  /** Texts all within the limit pass through unchanged, each tagged with its own position. */
  lemma {:induction false} NoSplitIdentity(texts: seq<string>, tok: Tokenizer)
    requires NoneSplit(texts, tok)
    ensures ValidatedTexts(texts, tok) == texts
    ensures OriginalIndices(texts, tok) == Range(|texts|)
  {
    if texts != [] {
      var n := |texts| - 1;
      NoneSplitSnoc(texts, tok);
      NoSplitIdentity(texts[..n], tok);
      assert texts[..n] + [texts[n]] == texts;
      assert Repeat(n, 1) == [n];
      assert Range(n) + [n] == Range(n + 1);
    }
  }

  /** `[x] * m`: `m` copies of `x`. */
  function Repeat(x: nat, m: nat): (r: seq<nat>)
    ensures |r| == m && forall j | 0 <= j < m :: r[j] == x
  {
    seq(m, _ => x)
  }

  /** `list(range(n))`. */
  function Range(n: nat): (r: seq<nat>)
    ensures |r| == n && forall i | 0 <= i < n :: r[i] == i
  {
    seq(n, i => i)
  }

  // ---------------------------------------------------------------- merging

  /** The embeddings of the first `n` zipped pairs grouped by original index, in order. */
  function Grouped(embeddings: seq<Vector>, indices: seq<int>, n: nat): (g: map<int, seq<Vector>>)
    requires n <= |embeddings| && n <= |indices|
    ensures forall k | k in g :: g[k] != []
    ensures forall j | 0 <= j < n :: indices[j] in g
  {
    if n == 0 then map[]
    else
      var g := Grouped(embeddings, indices, n - 1);
      var k := indices[n - 1];
      g[k := (if k in g then g[k] else []) + [embeddings[n - 1]]]
  }

  /** Each group holds that index's embeddings in their original order, and no index is left out. */
  lemma {:induction false} GroupedIsGroupOf(embeddings: seq<Vector>, indices: seq<int>, n: nat)
    requires n <= |embeddings| && n <= |indices|
    ensures forall k | k in Grouped(embeddings, indices, n) :: Grouped(embeddings, indices, n)[k] == GroupOf(embeddings[..n], indices[..n], k)
    ensures forall k | GroupOf(embeddings[..n], indices[..n], k) != [] :: k in Grouped(embeddings, indices, n)
  {
    if n > 0 {
      GroupedIsGroupOf(embeddings, indices, n - 1);
      assert embeddings[..n][..n - 1] == embeddings[..n - 1];
      assert indices[..n][..n - 1] == indices[..n - 1];
    }
  }

  /** The embeddings whose original index is `k`, in order. */
  function GroupOf(embeddings: seq<Vector>, indices: seq<int>, k: int): (r: seq<Vector>)
    requires |embeddings| == |indices|
    ensures |r| <= |embeddings|
    ensures (forall j | 0 <= j < |indices| :: indices[j] != k) <==> r == []
  {
    if embeddings == [] then []
    else
      var n := |embeddings| - 1;
      assert forall j | 0 <= j < n :: indices[..n][j] == indices[j];
      GroupOf(embeddings[..n], indices[..n], k) + (if indices[n] == k then [embeddings[n]] else [])
  }

  lemma {:induction false} GroupOfAppend(e1: seq<Vector>, i1: seq<int>, e2: seq<Vector>, i2: seq<int>, k: int)
    requires |e1| == |i1| && |e2| == |i2|
    ensures GroupOf(e1 + e2, i1 + i2, k) == GroupOf(e1, i1, k) + GroupOf(e2, i2, k)
    decreases |e2|
  {
    if e2 == [] {
      assert e1 + e2 == e1 && i1 + i2 == i1;
    } else {
      var n := |e2| - 1;
      assert (e1 + e2)[..|e1| + n] == e1 + e2[..n];
      assert (i1 + i2)[..|i1| + n] == i1 + i2[..n];
      GroupOfAppend(e1, i1, e2[..n], i2[..n], k);
      var last := if i2[n] == k then [e2[n]] else [];
      assert GroupOf(e2, i2, k) == GroupOf(e2[..n], i2[..n], k) + last;
      assert (i1 + i2)[|e1| + n] == i2[n] && (e1 + e2)[|e1| + n] == e2[n];
      assert GroupOf(e1 + e2, i1 + i2, k) == GroupOf(e1 + e2[..n], i1 + i2[..n], k) + last;
      AppendAssoc(GroupOf(e1, i1, k), GroupOf(e2[..n], i2[..n], k), last);
    }
  }

  lemma AppendAssoc(a: seq<Vector>, b: seq<Vector>, c: seq<Vector>)
    ensures (a + b) + c == a + (b + c)
  {
  }

  /** A block tagged with one index is that index's whole group. */
  lemma {:induction false} GroupOfBlock(e: seq<Vector>, m: nat, k: int)
    ensures GroupOf(e, Repeat(m, |e|), k) == if k == m then e else []
    decreases |e|
  {
    if e != [] {
      var n := |e| - 1;
      assert Repeat(m, |e|)[..n] == Repeat(m, n);
      GroupOfBlock(e[..n], m, k);
      assert e[..n] + [e[n]] == e;
    }
  }

  function Sum(xs: seq<real>): real {
    if xs == [] then 0.0 else Sum(xs[..|xs| - 1]) + xs[|xs| - 1]
  }

  /** The shortest length among the vectors: `zip(*embs)` stops there. */
  function MinLen(vs: seq<Vector>): (m: nat)
    requires vs != []
    ensures forall k | 0 <= k < |vs| :: m <= |vs[k]|
    ensures exists k | 0 <= k < |vs| :: m == |vs[k]|
  {
    if |vs| == 1 then |vs[0]|
    else
      var m := MinLen(vs[1..]);
      assert forall k | 1 <= k < |vs| :: vs[k] == vs[1..][k - 1];
      if |vs[0]| <= m then |vs[0]| else m
  }

  /** Component `d` of every vector. */
  function Column(vs: seq<Vector>, d: nat): (c: seq<real>)
    requires vs != [] && d < MinLen(vs)
    ensures |c| == |vs| && forall k | 0 <= k < |vs| :: c[k] == vs[k][d]
  {
    seq(|vs|, k requires 0 <= k < |vs| => vs[k][d])
  }

  /** The element-wise mean `[sum(vals) / len(vals) for vals in zip(*embs)]`. */
  function Mean(vs: seq<Vector>): (r: Vector)
    requires vs != []
    ensures |r| == MinLen(vs)
    ensures forall d | 0 <= d < |r| :: r[d] == Sum(Column(vs, d)) / (|vs| as real)
  {
    seq(MinLen(vs), d requires 0 <= d < MinLen(vs) => Sum(Column(vs, d)) / (|vs| as real))
  }

  /** One group's merged vector: a single piece passes through, several are averaged. */
  function Combine(embs: seq<Vector>): Vector
    requires embs != []
  {
    if |embs| == 1 then embs[0] else Mean(embs)
  }

  /** The merged vectors for original indices `0 .. n - 1`, or the first index that has no group. */
  function MergeGroups(grouped: map<int, seq<Vector>>, n: nat): (r: Result<seq<Vector>, int>)
    requires forall k | k in grouped :: grouped[k] != []
    ensures r.Success? <==> forall i | 0 <= i < n :: i in grouped
    ensures r.Success? ==> |r.value| == n && forall i | 0 <= i < n :: r.value[i] == Combine(grouped[i])
    ensures r.Failure? ==> 0 <= r.error < n && r.error !in grouped && forall i | 0 <= i < r.error :: i in grouped
  {
    if n == 0 then Success([])
    else
      match MergeGroups(grouped, n - 1)
      case Failure(e) => Failure(e)
      case Success(vs) =>
        if n - 1 in grouped then Success(vs + [Combine(grouped[n - 1])])
        else Failure(n - 1)
  }

  /**
   * `_merge_split_embeddings`: the embeddings themselves when there are
   * `numOriginal` of them; otherwise one vector per original index, or a
   * failure naming the first index with no embedding (Python's `KeyError`).
   * `zip` stops at the shorter of the two lists.
   */
  function MergeSplit(embeddings: seq<Vector>, indices: seq<int>, numOriginal: int): (r: Result<seq<Vector>, int>)
    ensures |embeddings| == numOriginal ==> r == Success(embeddings)
    ensures numOriginal <= 0 && |embeddings| != numOriginal ==> r == Success([])
  {
    if |embeddings| == numOriginal then Success(embeddings)
    else
      var m := if |embeddings| <= |indices| then |embeddings| else |indices|;
      MergeGroups(Grouped(embeddings, indices, m), if numOriginal < 0 then 0 else numOriginal)
  }

  /** The first loop of the merge: grouping the zipped pairs into a dict of lists. */
  method GroupByIndex(embeddings: seq<Vector>, originalIndices: seq<int>, m: nat) returns (grouped: map<int, seq<Vector>>)
    requires m <= |embeddings| && m <= |originalIndices|
    ensures grouped == Grouped(embeddings, originalIndices, m)
  {
    grouped := map[];
    for j := 0 to m
      invariant grouped == Grouped(embeddings, originalIndices, j)
    {
      var origIdx := originalIndices[j];
      if origIdx !in grouped {
        grouped := grouped[origIdx := []];
      }
      grouped := grouped[origIdx := grouped[origIdx] + [embeddings[j]]];
    }
  }

  /** The merge as the two loops over `zip(embeddings, original_indices)` and `range(num_original)`. */
  method MergeSplitEmbeddings(embeddings: seq<Vector>, originalIndices: seq<int>, numOriginal: int) returns (r: Result<seq<Vector>, int>)
    ensures r == MergeSplit(embeddings, originalIndices, numOriginal)
  {
    if |embeddings| == numOriginal {
      return Success(embeddings);
    }
    var m := if |embeddings| <= |originalIndices| then |embeddings| else |originalIndices|;
    var grouped := GroupByIndex(embeddings, originalIndices, m);
    var merged: seq<Vector> := [];
    var idx := 0;
    while idx < numOriginal
      invariant 0 <= idx && (numOriginal >= 0 ==> idx <= numOriginal) && (numOriginal < 0 ==> idx == 0)
      invariant MergeGroups(grouped, idx) == Success(merged)
    {
      if idx !in grouped {
        return Failure(idx);
      }
      var embs := grouped[idx];
      if |embs| == 1 {
        merged := merged + [embs[0]];
      } else {
        merged := merged + [Mean(embs)];
      }
      idx := idx + 1;
    }
    assert idx == if numOriginal < 0 then 0 else numOriginal;
    return Success(merged);
  }

  // -------------------------------------------------------------- batching

  /** What one provider call returns for a batch: its vectors, or an error. */
  type EmbedBatch = seq<string> -> Result<seq<Vector>, string>

  datatype EmbeddingError = ProviderError(message: string) | MissingIndex(index: int)

  /** The batches' vectors concatenated in order, or the first batch's error. */
  function EmbedBatches(batches: seq<seq<string>>, embed: EmbedBatch): (r: Result<seq<Vector>, string>)
    ensures batches == [] ==> r == Success([])
  {
    if batches == [] then Success([])
    else
      match embed(batches[0])
      case Failure(e) => Failure(e)
      case Success(vs) => Prepended(vs, EmbedBatches(batches[1..], embed))
  }

  /** `rest` with `vs` in front of its vectors; an error stays as it is. */
  function Prepended(vs: seq<Vector>, rest: Result<seq<Vector>, string>): (r: Result<seq<Vector>, string>)
    ensures r.Success? <==> rest.Success?
    ensures r.Success? ==> r.value == vs + rest.value
    ensures r.Failure? ==> r == rest
  {
    match rest
    case Failure(e) => Failure(e)
    case Success(more) => Success(vs + more)
  }

  lemma PrependedTwice(a: seq<Vector>, b: seq<Vector>, rest: Result<seq<Vector>, string>)
    ensures Prepended(a, Prepended(b, rest)) == Prepended(a + b, rest)
  {
    if rest.Success? {
      assert a + (b + rest.value) == (a + b) + rest.value;
    }
  }

  /** `generate_embeddings`: validate and split, embed in batches, merge. */
  function Embeddings(texts: seq<string>, tok: Tokenizer, batchSize: nat, embed: EmbedBatch): (r: Result<seq<Vector>, EmbeddingError>)
    requires batchSize > 0
    ensures texts == [] ==> r == Success([])
  {
    if texts == [] then Success([])
    else
      match EmbedBatches(Slices(ValidatedTexts(texts, tok), batchSize), embed)
      case Failure(e) => Failure(ProviderError(e))
      case Success(all) =>
        match MergeSplit(all, OriginalIndices(texts, tok), |texts|)
        case Failure(i) => Failure(MissingIndex(i))
        case Success(vs) => Success(vs)
  }

  /** `generate_embeddings` with its batch loop over `validated_texts[i : i + batch_size]`. */
  method GenerateEmbeddings(texts: seq<string>, tok: Tokenizer, batchSize: nat, embed: EmbedBatch) returns (r: Result<seq<Vector>, EmbeddingError>)
    requires batchSize > 0
    ensures r == Embeddings(texts, tok, batchSize, embed)
  {
    if texts == [] {
      return Success([]);
    }
    var validatedTexts, originalIndices := ValidateAndSplitTexts(texts, tok);
    ghost var whole := EmbedBatches(Slices(validatedTexts, batchSize), embed);
    var allEmbeddings: seq<Vector> := [];
    var i := 0;
    assert validatedTexts[0..] == validatedTexts;
    assert Prepended([], whole) == whole by {
      if whole.Success? {
        assert [] + whole.value == whole.value;
      }
    }
    while i < |validatedTexts|
      invariant 0 <= i <= |validatedTexts|
      invariant whole == Prepended(allEmbeddings, EmbedBatches(Slices(validatedTexts[i..], batchSize), embed))
    {
      var end := if i + batchSize <= |validatedTexts| then i + batchSize else |validatedTexts|;
      var batch := validatedTexts[i..end];
      SlicesFrom(validatedTexts, i, batchSize);
      ghost var later := Slices(validatedTexts[end..], batchSize);
      assert ([batch] + later)[0] == batch && ([batch] + later)[1..] == later;
      var embeddings := embed(batch);
      if embeddings.Failure? {
        return Failure(ProviderError(embeddings.error));
      }
      PrependedTwice(allEmbeddings, embeddings.value, EmbedBatches(later, embed));
      allEmbeddings := allEmbeddings + embeddings.value;
      i := end;
    }
    assert validatedTexts[|validatedTexts|..] == [];
    assert allEmbeddings + [] == allEmbeddings;
    assert whole == Success(allEmbeddings);
    var merged := MergeSplitEmbeddings(allEmbeddings, originalIndices, |texts|);
    if merged.Failure? {
      return Failure(MissingIndex(merged.error));
    }
    return Success(merged.value);
  }

  // ------------------------------------------------------------ round trip

  /** One vector per text, each given by `one`. */
  function EmbedEach(one: string -> Vector, texts: seq<string>): (r: seq<Vector>)
    ensures |r| == |texts| && forall j | 0 <= j < |texts| :: r[j] == one(texts[j])
  {
    seq(|texts|, j requires 0 <= j < |texts| => one(texts[j]))
  }

  /** A provider that embeds every text of a batch on its own, with `one`. */
  predicate EmbedsEach(embed: EmbedBatch, one: string -> Vector, batches: seq<seq<string>>) {
    forall k | 0 <= k < |batches| :: embed(batches[k]) == Success(EmbedEach(one, batches[k]))
  }

  lemma {:induction false} EmbedBatchesEach(batches: seq<seq<string>>, embed: EmbedBatch, one: string -> Vector)
    requires EmbedsEach(embed, one, batches)
    ensures EmbedBatches(batches, embed) == Success(EmbedEach(one, Concat(batches)))
  {
    if batches != [] {
      assert EmbedsEach(embed, one, batches[1..]) by {
        assert forall k | 0 <= k < |batches| - 1 :: batches[1..][k] == batches[k + 1];
      }
      EmbedBatchesEach(batches[1..], embed, one);
      assert EmbedEach(one, batches[0]) + EmbedEach(one, Concat(batches[1..])) == EmbedEach(one, batches[0] + Concat(batches[1..]));
    }
  }

  /** Text `i`'s group holds exactly the vectors of its own pieces. */
  lemma {:induction false} GroupOfPieces(texts: seq<string>, tok: Tokenizer, one: string -> Vector, i: nat)
    requires i < |texts|
    ensures GroupOf(EmbedEach(one, ValidatedTexts(texts, tok)), OriginalIndices(texts, tok), i) == EmbedEach(one, PiecesOf(texts[i], tok))
  {
    var n := |texts| - 1;
    var pre := ValidatedTexts(texts[..n], tok);
    var pieces := PiecesOf(texts[n], tok);
    var e1, e2 := EmbedEach(one, pre), EmbedEach(one, pieces);
    var i1, i2 := OriginalIndices(texts[..n], tok), Repeat(n, |pieces|);
    assert ValidatedTexts(texts, tok) == pre + pieces;
    assert OriginalIndices(texts, tok) == i1 + i2;
    EmbedEachAppend(one, pre, pieces);
    GroupOfAppend(e1, i1, e2, i2, i);
    GroupOfBlock(e2, n, i);
    if i < n {
      GroupOfPieces(texts[..n], tok, one, i);
      assert texts[..n][i] == texts[i];
      AppendEmpty(GroupOf(e1, i1, i));
    } else {
      IndicesInOrder(texts[..n], tok);
      assert GroupOf(e1, i1, n) == [];
      EmptyAppend(e2);
    }
  }

  lemma EmbedEachAppend(one: string -> Vector, a: seq<string>, b: seq<string>)
    ensures EmbedEach(one, a + b) == EmbedEach(one, a) + EmbedEach(one, b)
  {
    var l, r := EmbedEach(one, a + b), EmbedEach(one, a) + EmbedEach(one, b);
    forall k | 0 <= k < |l| ensures l[k] == r[k] {
      if k < |a| {
        assert (a + b)[k] == a[k];
      } else {
        assert (a + b)[k] == b[k - |a|];
      }
    }
    assert l == r;
  }

  lemma AppendEmpty(s: seq<Vector>)
    ensures s + [] == s
  {
  }

  lemma EmptyAppend(s: seq<Vector>)
    ensures [] + s == s
  {
  }

  /** A successful run returns exactly one vector per input text. */
  lemma EmbeddingsCount(texts: seq<string>, tok: Tokenizer, batchSize: nat, embed: EmbedBatch)
    requires batchSize > 0
    ensures var r := Embeddings(texts, tok, batchSize, embed);
      r.Success? ==> |r.value| == |texts|
  {
  }

  /**
   * Split and merge keep one vector per input text. With a provider that
   * embeds each text on its own with `one`, text `i`'s vector is `one` of the
   * text when it is within the limit, and otherwise the element-wise mean of
   * `one` over its pieces.
   */
  lemma OneVectorPerText(texts: seq<string>, tok: Tokenizer, batchSize: nat, embed: EmbedBatch, one: string -> Vector)
    requires batchSize > 0
    requires EmbedsEach(embed, one, Slices(ValidatedTexts(texts, tok), batchSize))
    ensures var r := Embeddings(texts, tok, batchSize, embed);
      && r.Success? && |r.value| == |texts|
      && forall i | 0 <= i < |texts| :: r.value[i] == Combine(EmbedEach(one, PiecesOf(texts[i], tok)))
  {
    if texts != [] {
      var v := ValidatedTexts(texts, tok);
      var ix := OriginalIndices(texts, tok);
      var all := EmbedEach(one, v);
      EmbedBatchesEach(Slices(v, batchSize), embed, one);
      SlicesConcat(v, batchSize);
      assert EmbedBatches(Slices(v, batchSize), embed) == Success(all);
      if |all| == |texts| {
        SameCountIffNoSplit(texts, tok);
        NoSplitIdentity(texts, tok);
      } else {
        MergeOfGroups(texts, tok, one);
      }
    }
  }

  /** The general path of the merge, on the vectors of the validated texts. */
  lemma MergeOfGroups(texts: seq<string>, tok: Tokenizer, one: string -> Vector)
    ensures var r := MergeGroups(Grouped(EmbedEach(one, ValidatedTexts(texts, tok)), OriginalIndices(texts, tok), |OriginalIndices(texts, tok)|), |texts|);
      && r.Success? && |r.value| == |texts|
      && forall i | 0 <= i < |texts| :: r.value[i] == Combine(EmbedEach(one, PiecesOf(texts[i], tok)))
  {
    var all := EmbedEach(one, ValidatedTexts(texts, tok));
    var ix := OriginalIndices(texts, tok);
    var g := Grouped(all, ix, |ix|);
    forall i | 0 <= i < |texts|
      ensures i in g && g[i] == EmbedEach(one, PiecesOf(texts[i], tok))
    {
      GroupedPieces(texts, tok, one, i);
    }
  }

  /** Text `i`'s group in the grouped vectors of the validated texts is the vectors of its pieces. */
  lemma GroupedPieces(texts: seq<string>, tok: Tokenizer, one: string -> Vector, i: nat)
    requires i < |texts|
    ensures var all := EmbedEach(one, ValidatedTexts(texts, tok));
      var ix := OriginalIndices(texts, tok);
      var g := Grouped(all, ix, |ix|);
      i in g && g[i] == EmbedEach(one, PiecesOf(texts[i], tok))
  {
    var all := EmbedEach(one, ValidatedTexts(texts, tok));
    var ix := OriginalIndices(texts, tok);
    GroupedIsGroupOf(all, ix, |ix|);
    GroupOfPieces(texts, tok, one, i);
    WholePrefix(all);
    WholeIndexPrefix(ix);
  }

  lemma WholePrefix(s: seq<Vector>)
    ensures s[..|s|] == s
  {
  }

  lemma WholeIndexPrefix(s: seq<nat>)
    ensures s[..|s|] == s
  {
  }
}
