/**
 * The chunker's notion of a word: one CJK unified ideograph (U+4E00 to
 * U+9FFF) or one maximal run of ASCII letters. Word counting and the
 * tokenizer used for overlap extraction both rest on it.
 */
module ChunkWords {
  import opened Text

  predicate IsCjk(c: char) {
    '\U{4E00}' <= c <= '\U{9FFF}'
  }

  predicate IsAsciiLetter(c: char) {
    ('a' <= c <= 'z') || ('A' <= c <= 'Z')
  }

  /** The length of the run of ASCII letters that `s` starts with. */
  function LetterRunLength(s: string): (k: nat)
    ensures k <= |s|
    ensures forall i | 0 <= i < k :: IsAsciiLetter(s[i])
    ensures k < |s| ==> !IsAsciiLetter(s[k])
  {
    if s != [] && IsAsciiLetter(s[0]) then 1 + LetterRunLength(s[1..]) else 0
  }

  /** `len(re.findall(r"[一-鿿]", s))`. */
  function CjkCount(s: string): (n: nat)
    ensures n <= |s|
  {
    if s == [] then 0 else (if IsCjk(s[0]) then 1 else 0) + CjkCount(s[1..])
  }

  /** `len(re.findall(r"[a-zA-Z]+", s))`: the number of maximal runs of ASCII letters. */
  function LetterRuns(s: string): (n: nat)
    ensures n <= |s|
    decreases |s|
  {
    if s == [] then 0
    else if IsAsciiLetter(s[0]) then 1 + LetterRuns(s[LetterRunLength(s)..])
    else LetterRuns(s[1..])
  }

  /** `count_words`: CJK characters plus runs of ASCII letters. */
  function CountWords(s: string): nat {
    CjkCount(s) + LetterRuns(s)
  }

  /** Every word is at least one character long. */
  lemma {:induction false} CountWordsAtMostLength(s: string)
    ensures CountWords(s) <= |s|
    decreases |s|
  {
    if s != [] {
      CountWordsAtMostLength(s[1..]);
      if IsAsciiLetter(s[0]) {
        var k := LetterRunLength(s);
        CountWordsAtMostLength(s[k..]);
        CjkOfLetters(s, k);
      }
    }
  }

  /** A run of letters holds no CJK character. */
  lemma {:induction false} CjkOfLetters(s: string, k: nat)
    requires k <= |s| && forall i | 0 <= i < k :: IsAsciiLetter(s[i])
    ensures CjkCount(s) == CjkCount(s[k..])
    decreases k
  {
    if k > 0 {
      CjkOfLetters(s[1..], k - 1);
      assert s[1..][k - 1..] == s[k..];
    }
  }

  lemma {:induction false} CjkCountAppend(a: string, b: string)
    ensures CjkCount(a + b) == CjkCount(a) + CjkCount(b)
  {
    if a != [] {
      assert (a + b)[1..] == a[1..] + b;
      CjkCountAppend(a[1..], b);
    } else {
      assert a + b == b;
    }
  }

  /** Letter runs add up across a boundary that does not join two letters. */
  lemma {:induction false} LetterRunsAppend(a: string, b: string)
    requires a == [] || b == [] || !IsAsciiLetter(a[|a| - 1]) || !IsAsciiLetter(b[0])
    ensures LetterRuns(a + b) == LetterRuns(a) + LetterRuns(b)
    decreases |a|
  {
    if a == [] {
      assert a + b == b;
    } else if !IsAsciiLetter(a[0]) {
      assert (a + b)[1..] == a[1..] + b;
      LetterRunsAppend(a[1..], b);
    } else {
      var k := LetterRunLength(a);
      var k' := LetterRunLength(a + b);
      if k == |a| {
        assert b == [] || !IsAsciiLetter(b[0]);
        RunLengthPrefix(a, b);
        assert (a + b)[k'..] == b;
        assert a[k..] == [];
      } else {
        RunLengthPrefix(a, b);
        assert (a + b)[k'..] == a[k..] + b;
        LetterRunsAppend(a[k..], b);
      }
    }
  }

  lemma RunLengthPrefix(a: string, b: string)
    requires a != [] && IsAsciiLetter(a[0])
    requires LetterRunLength(a) < |a| || b == [] || !IsAsciiLetter(b[0])
    ensures LetterRunLength(a + b) == LetterRunLength(a)
  {
    var k := LetterRunLength(a);
    var s := a + b;
    RunLengthFromLetters(s, k);
  }

  lemma {:induction false} RunLengthFromLetters(s: string, k: nat)
    requires k <= |s| && forall i | 0 <= i < k :: IsAsciiLetter(s[i])
    requires k == |s| || !IsAsciiLetter(s[k])
    ensures LetterRunLength(s) == k
    decreases k
  {
    if k > 0 {
      RunLengthFromLetters(s[1..], k - 1);
    }
  }

  /** Word counts add up across a boundary that does not join two letters. */
  lemma CountWordsAppend(a: string, b: string)
    requires a == [] || b == [] || !IsAsciiLetter(a[|a| - 1]) || !IsAsciiLetter(b[0])
    ensures CountWords(a + b) == CountWords(a) + CountWords(b)
  {
    CjkCountAppend(a, b);
    LetterRunsAppend(a, b);
  }

  /** Joining with a separator that holds no word adds the parts' word counts. */
  lemma CountWordsAround(a: string, sep: string, b: string)
    requires sep != [] && !IsAsciiLetter(sep[0]) && !IsAsciiLetter(sep[|sep| - 1]) && CountWords(sep) == 0
    ensures CountWords(a + sep + b) == CountWords(a) + CountWords(b)
  {
    CountWordsAppend(a, sep);
    assert (a + sep)[|a + sep| - 1] == sep[|sep| - 1];
    CountWordsAppend(a + sep, b);
  }

  /** Whitespace holds no word. */
  lemma {:induction false} BlankHasNoWords(s: string)
    requires AllSpace(s)
    ensures CountWords(s) == 0
  {
    if s != [] {
      assert AllSpace(s[1..]);
      BlankHasNoWords(s[1..]);
      assert !IsAsciiLetter(s[0]) && !IsCjk(s[0]);
    }
  }

  /** Stripping removes whitespace only, so it keeps every word. */
  lemma StripKeepsWords(s: string)
    ensures CountWords(Strip(s)) == CountWords(s)
  {
    var b := SkipSpaces(s, 0);
    var e := SkipSpacesBack(s, b, |s|);
    assert s == s[..b] + s[b..e] + s[e..];
    BlanksAround(s[..b], s[b..e], s[e..]);
  }

  /** Whitespace on either side of a text adds no word. */
  lemma BlanksAround(head: string, mid: string, tail: string)
    requires AllSpace(head) && AllSpace(tail)
    ensures CountWords(head + mid + tail) == CountWords(mid)
  {
    BlankHasNoWords(head);
    BlankHasNoWords(tail);
    assert head == [] || !IsAsciiLetter(head[|head| - 1]);
    CountWordsAppend(head, mid);
    assert tail == [] || !IsAsciiLetter(tail[0]);
    CountWordsAppend(head + mid, tail);
  }

  /**
   * The matches of `[一-鿿]|[a-zA-Z]+|\S`, left to right: a CJK
   * character, a maximal run of letters, or any other non-whitespace character.
   */
  function TokenMatches(s: string): (ts: seq<string>)
    ensures forall t | t in ts :: t != []
    decreases |s|
  {
    if s == [] then []
    else if IsCjk(s[0]) then [s[..1]] + TokenMatches(s[1..])
    else if IsAsciiLetter(s[0]) then
      var k := LetterRunLength(s);
      [s[..k]] + TokenMatches(s[k..])
    else if !IsSpace(s[0]) then [s[..1]] + TokenMatches(s[1..])
    else TokenMatches(s[1..])
  }

  /** A match that starts with a CJK character or a letter is a word token. */
  predicate IsWordToken(t: string) {
    t != [] && (IsCjk(t[0]) || IsAsciiLetter(t[0]))
  }

  /** The word tokens among `ts`, in order. */
  function WordTokens(ts: seq<string>): (ws: seq<string>)
    ensures |ws| <= |ts|
    ensures forall w | w in ws :: IsWordToken(w)
  {
    if ts == [] then []
    else WordTokens(ts[..|ts| - 1]) + (if IsWordToken(ts[|ts| - 1]) then [ts[|ts| - 1]] else [])
  }

  lemma {:induction false} WordTokensAppend(a: seq<string>, b: seq<string>)
    ensures WordTokens(a + b) == WordTokens(a) + WordTokens(b)
    decreases |b|
  {
    if b == [] {
      assert a + b == a;
    } else {
      assert (a + b)[..|a + b| - 1] == a + b[..|b| - 1];
      WordTokensAppend(a, b[..|b| - 1]);
    }
  }

  /** The tokenizer finds exactly as many word tokens as `count_words` counts. */
  lemma {:induction false} WordTokensCountWords(s: string)
    ensures |WordTokens(TokenMatches(s))| == CountWords(s)
    decreases |s|
  {
    if s != [] {
      if IsCjk(s[0]) {
        assert !IsAsciiLetter(s[0]);
        WordTokensCountWords(s[1..]);
        WordTokensAppend([s[..1]], TokenMatches(s[1..]));
        assert WordTokens([s[..1]]) == [s[..1]] by {
          assert [s[..1]][..0] == [];
        }
      } else if IsAsciiLetter(s[0]) {
        var k := LetterRunLength(s);
        WordTokensCountWords(s[k..]);
        WordTokensAppend([s[..k]], TokenMatches(s[k..]));
        assert WordTokens([s[..k]]) == [s[..k]] by {
          assert [s[..k]][..0] == [];
        }
        CjkOfLetters(s, k);
      } else {
        WordTokensCountWords(s[1..]);
        if !IsSpace(s[0]) {
          WordTokensAppend([s[..1]], TokenMatches(s[1..]));
          assert WordTokens([s[..1]]) == [] by {
            assert [s[..1]][..0] == [];
          }
        }
      }
    }
  }

  /** Two CJK characters and one English word. */
  lemma CountWordsExample()
    ensures CountWords("睡前 news!") == 3
  {
    var s := "睡前 news!";
    assert LetterRunLength("news!") == 4 by {
      RunLengthFromLetters("news!", 4);
    }
    assert "news!"[4..] == "!";
    assert s[1..] == "前 news!" && s[1..][1..] == " news!" && s[1..][1..][1..] == "news!";
  }
}
