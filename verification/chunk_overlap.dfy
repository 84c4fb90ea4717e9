/**
 * The overlap carried from one chunk into the next: roughly the last
 * `numWords` words of a text, moved back to a nearby sentence or paragraph
 * break when there is one.
 */
module ChunkOverlap {
  import opened Wrappers
  import opened Text
  import opened ChunkWords

  /** The break strings, in the order they are tried. */
  const BreakChars: seq<string> := ["。", "！", "？", "；", ".", "!", "?", ";", "\n\n"]

  /** Half the width of the window searched for a break. */
  const Window: nat := 50

  /**
   * The start of the last `n` of `tokens` words as a character offset:
   * `len * (1 - n / tokens)`, truncated.
   */
  function StartPos(len: nat, tokens: nat, n: nat): (p: nat)
    requires 0 < n < tokens
    ensures p <= len
  {
    var m: nat := tokens - n;
    ScaledBelow(len, m, tokens);
    len * m / tokens
  }

  lemma ScaledBelow(len: nat, m: nat, t: nat)
    requires m <= t && t > 0
    ensures 0 <= len * m / t <= len
  {
    var x := len * m;
    MulMonotone(len, m, t);
    QuotientBelow(x, len, t);
  }

  /** `len * m <= len * t` when `m <= t`. */
  lemma MulMonotone(len: nat, m: nat, t: nat)
    requires m <= t
    ensures 0 <= len * m <= len * t
  {
    assert len * t - len * m == len * (t - m);
  }

  /** A quotient by `t` of anything up to `len * t` is at most `len`. */
  lemma QuotientBelow(x: nat, len: nat, t: nat)
    requires t > 0 && x <= len * t
    ensures 0 <= x / t <= len
  {
    var q := x / t;
    assert q * t <= x;
    assert (q - len) * t == q * t - len * t;
    NonPositiveFactor(q - len, t);
  }

  lemma NonPositiveFactor(a: int, t: int)
    requires t > 0 && a * t <= 0
    ensures a <= 0
  {
  }

  /** The last occurrence of the first break string (in list order) that occurs at all. */
  function BreakPos(search: string, chars: seq<string>): (r: Option<nat>)
    requires forall c | c in chars :: c != []
    ensures r.Some? ==> r.value < |search|
    ensures r.Some? ==> exists k | 0 <= k < |chars| :: OccursAt(search, chars[k], r.value)
    ensures r.None? ==> forall k, j | 0 <= k < |chars| :: !OccursAt(search, chars[k], j)
  {
    if chars == [] then None
    else
      assert chars[0] in chars;
      match RFind(search, chars[0])
      case Some(p) => Some(p)
      case None =>
        assert forall c | c in chars[1..] :: c in chars;
        var r := BreakPos(search, chars[1..]);
        assert forall k | 1 <= k < |chars| :: chars[k] == chars[1..][k - 1];
        r
  }

  /** The window `text[max(0, start - 50) : start + 50]` starts here ... */
  function WindowLo(start: nat): nat {
    if start >= Window then start - Window else 0
  }

  /** ... and ends here. */
  function WindowHi(text: string, start: nat): (hi: nat)
    requires start <= |text|
    ensures WindowLo(start) <= hi <= |text|
  {
    if start + Window <= |text| then start + Window else |text|
  }

  /**
   * Where the overlap starts: just after the break found in the window, or
   * the estimated start when the window holds none.
   */
  function OverlapStart(text: string, n: nat): (b: nat)
    requires 0 < n < CountWords(text)
    ensures b <= |text|
  {
    var start := StartPos(|text|, CountWords(text), n);
    var lo := WindowLo(start);
    match BreakPos(text[lo..WindowHi(text, start)], BreakChars)
    case Some(p) => lo + p + 1
    case None => start
  }

  /** `b` is where an overlap may start: the estimate, or just after a break in the window around it. */
  predicate OverlapCandidate(text: string, n: nat, b: nat)
    requires 0 < n < CountWords(text)
  {
    var start := StartPos(|text|, CountWords(text), n);
    b <= |text| && (b == start || (WindowLo(start) < b <= WindowHi(text, start)))
  }

  /**
   * `_extract_last_words`: nothing when no words are asked for, the whole text
   * when it has no more words than that, and otherwise a stripped tail of the
   * text taken from a candidate start.
   */
  function LastWords(text: string, numWords: int): (r: string)
    ensures numWords <= 0 ==> r == ""
    ensures 0 < numWords && CountWords(text) <= numWords ==> r == text
    ensures 0 < numWords < CountWords(text) ==>
      && IsStripped(r)
      && exists b: nat | OverlapCandidate(text, numWords, b) :: r == Strip(text[b..])
  {
    if numWords <= 0 then ""
    else if CountWords(text) <= numWords then text
    else Strip(text[OverlapStart(text, numWords)..])
  }

  /**
   * When the text has more words than asked for, the overlap is a stripped
   * tail of the text that starts after a break inside the window around the
   * estimated start, or at the estimated start itself.
   */
  lemma LastWordsIsTail(text: string, numWords: int)
    requires 0 < numWords < CountWords(text)
    ensures var start := StartPos(|text|, CountWords(text), numWords);
      var b := OverlapStart(text, numWords);
      && IsStripped(LastWords(text, numWords))
      && LastWords(text, numWords) == Strip(text[b..])
      && (b == start || (WindowLo(start) < b <= WindowHi(text, start) && b <= start + Window))
  {
  }

  /** A break found in the window puts the overlap right after that break string. */
  lemma LastWordsAfterBreak(text: string, numWords: int)
    requires 0 < numWords < CountWords(text)
    ensures var start := StartPos(|text|, CountWords(text), numWords);
      var lo := WindowLo(start);
      var b := OverlapStart(text, numWords);
      b != start ==> exists k | 0 <= k < |BreakChars| :: OccursAt(text[lo..WindowHi(text, start)], BreakChars[k], b - lo - 1)
  {
  }

  /**
   * `_extract_last_words`: collects the word tokens, returns the text when
   * there are few enough, and otherwise searches the window for the break
   * strings in order, stopping at the first one found.
   */
  method ExtractLastWords(text: string, numWords: int) returns (r: string)
    ensures r == LastWords(text, numWords)
  {
    if numWords <= 0 {
      return "";
    }
    var tokens := CollectWords(text);
    if |tokens| <= numWords {
      return text;
    }
    var start := StartPos(|text|, |tokens|, numWords);
    var lo := WindowLo(start);
    var hi := WindowHi(text, start);
    var pos := FindBreak(text[lo..hi]);
    var bestPos := start;
    if pos.Some? {
      bestPos := lo + pos.value + 1;
    }
    assert bestPos == OverlapStart(text, numWords);
    r := Strip(text[bestPos..]);
  }

  /** The word tokens of `text`, collected in order; there are `CountWords(text)` of them. */
  method CollectWords(text: string) returns (tokens: seq<string>)
    ensures |tokens| == CountWords(text)
  {
    var matches := TokenMatches(text);
    tokens := [];
    for i := 0 to |matches|
      invariant tokens == WordTokens(matches[..i])
    {
      assert matches[..i + 1][..i] == matches[..i];
      if IsWordToken(matches[i]) {
        tokens := tokens + [matches[i]];
      }
    }
    assert matches[..|matches|] == matches;
    WordTokensCountWords(text);
  }

  /** The break search: each break string in turn, stopping at the first that occurs. */
  method FindBreak(searchText: string) returns (pos: Option<nat>)
    ensures pos == BreakPos(searchText, BreakChars)
  {
    pos := None;
    var k := 0;
    while k < |BreakChars|
      invariant 0 <= k <= |BreakChars|
      invariant BreakPos(searchText, BreakChars) == BreakPos(searchText, BreakChars[k..])
      invariant pos == None
    {
      pos := RFind(searchText, BreakChars[k]);
      if pos.Some? {
        return;
      }
      assert BreakChars[k..][1..] == BreakChars[k + 1..];
      k := k + 1;
    }
  }
}
