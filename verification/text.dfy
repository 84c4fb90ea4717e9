/** The Python string operations the modelled code relies on, on `seq<char>`. */
module Text {
  import opened Wrappers

  /** Python's `str.isspace()` for one character; the same set is what `\s` matches in a str pattern. */
  predicate IsSpace(c: char) {
    || c == ' ' || c == '\t' || c == '\n' || c == '\r'
    || c == '\U{0B}' || c == '\U{0C}'
    || ('\U{1C}' <= c <= '\U{1F}')
    || c == '\U{85}' || c == '\U{A0}' || c == '\U{1680}'
    || ('\U{2000}' <= c <= '\U{200A}')
    || c == '\U{2028}' || c == '\U{2029}' || c == '\U{202F}' || c == '\U{205F}' || c == '\U{3000}'
  }

  predicate AllSpace(s: string) {
    forall k | 0 <= k < |s| :: IsSpace(s[k])
  }

  /** Neither end of `s` is whitespace: what `str.strip()` returns. */
  predicate IsStripped(s: string) {
    s == [] || (!IsSpace(s[0]) && !IsSpace(s[|s| - 1]))
  }

  /** Index of the first non-whitespace character at or after `i`, or `|s|`. */
  function SkipSpaces(s: string, i: nat): (j: nat)
    requires i <= |s|
    ensures i <= j <= |s|
    ensures forall k | i <= k < j :: IsSpace(s[k])
    ensures j < |s| ==> !IsSpace(s[j])
    decreases |s| - i
  {
    if i < |s| && IsSpace(s[i]) then SkipSpaces(s, i + 1) else i
  }

  /** Index just after the last non-whitespace character of `s[lo..j]`, or `lo`. */
  function SkipSpacesBack(s: string, lo: nat, j: nat): (e: nat)
    requires lo <= j <= |s|
    ensures lo <= e <= j
    ensures forall k | e <= k < j :: IsSpace(s[k])
    ensures e > lo ==> !IsSpace(s[e - 1])
  {
    if j > lo && IsSpace(s[j - 1]) then SkipSpacesBack(s, lo, j - 1) else j
  }

  /** Python's `str.strip()`: the text between the first and the last non-whitespace character. */
  function Strip(s: string): (r: string)
    ensures IsStripped(r)
    ensures |r| <= |s|
    ensures r == [] <==> AllSpace(s)
  {
    var b := SkipSpaces(s, 0);
    var e := SkipSpacesBack(s, b, |s|);
    assert b < e ==> !IsSpace(s[b]);
    s[b..e]
  }

  lemma StripOfStripped(s: string)
    requires IsStripped(s)
    ensures Strip(s) == s
  {
  }

  /** `str.upper()` on ASCII letters; other characters are left as they are. */
  function UpperChar(c: char): char {
    if 'a' <= c <= 'z' then (c as int - 32) as char else c
  }

  function Upper(s: string): (r: string)
    ensures |r| == |s|
  {
    seq(|s|, i requires 0 <= i < |s| => UpperChar(s[i]))
  }

  predicate StartsWith(s: string, prefix: string) {
    |prefix| <= |s| && s[..|prefix|] == prefix
  }

  function IndexOf(s: string, c: char): (i: nat)
    requires c in s
    ensures i < |s| && s[i] == c && c !in s[..i]
  {
    if s[0] == c then 0 else 1 + IndexOf(s[1..], c)
  }

  /** The first occurrence comes no later than any occurrence. */
  lemma {:induction false} IndexOfFirst(s: string, c: char, j: nat)
    requires j < |s| && s[j] == c
    ensures IndexOf(s, c) <= j
  {
    if s[0] != c {
      assert s[1..][j - 1] == c;
      IndexOfFirst(s[1..], c, j - 1);
    }
  }

  /** Python's `str.split(sep)` for a one-character separator. */
  function Split(s: string, c: char): (parts: seq<string>)
    ensures |parts| >= 1
    ensures forall p | p in parts :: c !in p
    decreases |s|
  {
    if c !in s then [s]
    else
      var i := IndexOf(s, c);
      [s[..i]] + Split(s[i + 1..], c)
  }

  /** Python's `str.join`. */
  function Join(sep: string, parts: seq<string>): string {
    if parts == [] then []
    else if |parts| == 1 then parts[0]
    else parts[0] + sep + Join(sep, parts[1..])
  }

  /** Splitting at a character and joining back with it gives the text back. */
  lemma {:induction false} JoinSplit(s: string, c: char)
    ensures Join([c], Split(s, c)) == s
    decreases |s|
  {
    if c in s {
      var i := IndexOf(s, c);
      var rest := Split(s[i + 1..], c);
      JoinSplit(s[i + 1..], c);
      var parts := [s[..i]] + rest;
      calc {
        Join([c], Split(s, c));
        Join([c], parts);
        { assert parts[1..] == rest; }
        s[..i] + [c] + Join([c], rest);
        s[..i] + [c] + s[i + 1..];
        { assert s[..i] + [s[i]] == s[..i + 1]; }
        s;
      }
    }
  }

  /** Joining one more part appends the separator and that part. */
  lemma {:induction false} JoinSnoc(sep: string, parts: seq<string>, x: string)
    requires parts != []
    ensures Join(sep, parts + [x]) == Join(sep, parts) + sep + x
    decreases |parts|
  {
    var all := parts + [x];
    if |parts| == 1 {
      assert all[1..] == [x];
    } else {
      assert all[1..] == parts[1..] + [x];
      JoinSnoc(sep, parts[1..], x);
    }
  }

  /** A joined text is blank only if every part is. */
  lemma {:induction false} JoinNotAllSpace(sep: string, parts: seq<string>, i: nat)
    requires i < |parts| && !AllSpace(parts[i])
    ensures !AllSpace(Join(sep, parts))
    decreases |parts|
  {
    var j := Join(sep, parts);
    if |parts| > 1 {
      if i == 0 {
        var k :| 0 <= k < |parts[0]| && !IsSpace(parts[0][k]);
        assert j[k] == parts[0][k];
      } else {
        JoinNotAllSpace(sep, parts[1..], i - 1);
        var rest := Join(sep, parts[1..]);
        var k :| 0 <= k < |rest| && !IsSpace(rest[k]);
        assert j[|parts[0] + sep| + k] == rest[k];
      }
    }
  }

  /** Python's `str.replace(old, new)` with a single-character old and new. */
  function ReplaceChar(s: string, from: char, to: char): (r: string)
    ensures |r| == |s|
    ensures forall k | 0 <= k < |s| :: r[k] == (if s[k] == from then to else s[k])
  {
    if s == [] then [] else [if s[0] == from then to else s[0]] + ReplaceChar(s[1..], from, to)
  }

  predicate OccursAt(s: string, pat: string, i: int) {
    0 <= i && i + |pat| <= |s| && s[i..i + |pat|] == pat
  }

  /** Python's `str.replace(old, new)`: every non-overlapping occurrence, left to right. */
  function ReplaceAll(s: string, pat: string, rep: string): (r: string)
    requires pat != []
    ensures (forall j :: !OccursAt(s, pat, j)) ==> r == s
    ensures forall c | c in r :: c in s || c in rep
    decreases |s|
  {
    if |s| < |pat| then s
    else if s[..|pat|] == pat then assert OccursAt(s, pat, 0); rep + ReplaceAll(s[|pat|..], pat, rep)
    else
      assert forall j :: OccursAt(s[1..], pat, j) ==> OccursAt(s, pat, j + 1) by {
        forall j | OccursAt(s[1..], pat, j) ensures OccursAt(s, pat, j + 1) {
          assert s[j + 1..j + 1 + |pat|] == s[1..][j..j + |pat|];
        }
      }
      [s[0]] + ReplaceAll(s[1..], pat, rep)
  }

  function RFindBelow(s: string, pat: string, i: nat): (r: Option<nat>)
    ensures r.Some? ==> r.value < i && OccursAt(s, pat, r.value)
    ensures r.Some? ==> forall j :: r.value < j < i ==> !OccursAt(s, pat, j)
    ensures r.None? ==> forall j :: 0 <= j < i ==> !OccursAt(s, pat, j)
  {
    if i == 0 then None
    else if OccursAt(s, pat, i - 1) then Some(i - 1)
    else RFindBelow(s, pat, i - 1)
  }

  /** Python's `str.rfind(sub)`: the start of the last occurrence, None for Python's -1. */
  function RFind(s: string, pat: string): (r: Option<nat>)
    ensures r.Some? ==> OccursAt(s, pat, r.value)
    ensures r.Some? ==> forall j :: r.value < j ==> !OccursAt(s, pat, j)
    ensures r.None? ==> forall j :: !OccursAt(s, pat, j)
  {
    RFindBelow(s, pat, |s| + 1)
  }

  predicate IsDigit(c: char) {
    '0' <= c <= '9'
  }

  predicate AllDigits(s: string) {
    forall k | 0 <= k < |s| :: IsDigit(s[k])
  }

  /** `int(s)` for a run of decimal digits. */
  function DecimalValue(s: string): nat
    requires AllDigits(s)
  {
    if s == [] then 0 else 10 * DecimalValue(s[..|s| - 1]) + (s[|s| - 1] as int - '0' as int)
  }

  function DigitChar(d: nat): (c: char)
    requires d < 10
    ensures IsDigit(c) && c as int - '0' as int == d
  {
    ('0' as int + d) as char
  }

  /** `str(n)` for a non-negative integer. */
  function NatToString(n: nat): (s: string)
    ensures |s| >= 1 && AllDigits(s)
  {
    if n < 10 then [DigitChar(n)] else NatToString(n / 10) + [DigitChar(n % 10)]
  }

  lemma {:induction false} NatToStringRoundTrip(n: nat)
    ensures DecimalValue(NatToString(n)) == n
  {
    var s := NatToString(n);
    if n >= 10 {
      NatToStringRoundTrip(n / 10);
      assert s[..|s| - 1] == NatToString(n / 10);
    } else {
      assert s[..|s| - 1] == [];
    }
  }

  /** `str(i)` for any integer. */
  function IntToString(i: int): string {
    if i < 0 then "-" + NatToString(-i) else NatToString(i)
  }

  /** The `{n:0Wd}` format of a non-negative integer: zeros on the left up to `width` characters. */
  function ZeroPad(s: string, width: nat): (r: string)
    ensures |r| == if |s| < width then width else |s|
    ensures r[|r| - |s|..] == s
    ensures forall k | 0 <= k < |r| - |s| :: r[k] == '0'
  {
    if |s| < width then seq(width - |s|, _ => '0') + s else s
  }

  /** Leading zeros do not change a decimal value. */
  lemma {:induction false} LeadingZeros(z: string, s: string)
    requires AllDigits(s) && forall k | 0 <= k < |z| :: z[k] == '0'
    ensures AllDigits(z + s) && DecimalValue(z + s) == DecimalValue(s)
    decreases |s|
  {
    if s == [] {
      assert z + s == z;
      ZerosValue(z);
    } else {
      assert (z + s)[..|z + s| - 1] == z + s[..|s| - 1];
      LeadingZeros(z, s[..|s| - 1]);
    }
  }

  lemma {:induction false} ZerosValue(z: string)
    requires forall k | 0 <= k < |z| :: z[k] == '0'
    ensures AllDigits(z) && DecimalValue(z) == 0
  {
    if z != [] {
      ZerosValue(z[..|z| - 1]);
    }
  }

  /** A zero-padded numeral still reads as its number. */
  lemma ZeroPadValue(n: nat, width: nat)
    ensures AllDigits(ZeroPad(NatToString(n), width)) && DecimalValue(ZeroPad(NatToString(n), width)) == n
  {
    var s := NatToString(n);
    NatToStringRoundTrip(n);
    if |s| < width {
      LeadingZeros(seq(width - |s|, _ => '0'), s);
    }
  }

  /** Zero-padded numerals of different numbers differ. */
  lemma ZeroPadInjective(m: nat, n: nat, width: nat)
    requires ZeroPad(NatToString(m), width) == ZeroPad(NatToString(n), width)
    ensures m == n
  {
    ZeroPadValue(m, width);
    ZeroPadValue(n, width);
  }

  function DigitRunLength(s: string): (k: nat)
    ensures k <= |s| && AllDigits(s[..k])
    ensures k < |s| ==> !IsDigit(s[k])
  {
    if s != [] && IsDigit(s[0]) then
      var k := 1 + DigitRunLength(s[1..]);
      assert s[..k] == [s[0]] + s[1..][..k - 1];
      k
    else 0
  }

  predicate HasDigit(s: string) {
    exists k | 0 <= k < |s| :: IsDigit(s[k])
  }

  /** The integers of `re.findall(r"\d+", s)`, each read with `int()`, in order. */
  function DigitRuns(s: string): (ns: seq<nat>)
    ensures !HasDigit(s) ==> ns == []
    decreases |s|
  {
    if s == [] then []
    else if !IsDigit(s[0]) then
      assert !HasDigit(s) ==> !HasDigit(s[1..]) by {
        if HasDigit(s[1..]) { var k :| 0 <= k < |s[1..]| && IsDigit(s[1..][k]); assert IsDigit(s[k + 1]); }
      }
      DigitRuns(s[1..])
    else
      var k := DigitRunLength(s);
      [DecimalValue(s[..k])] + DigitRuns(s[k..])
  }

  /** The interpreter's default limit on the digits `int()` converts from a string. */
  const IntMaxStrDigits: nat := 4300

  /** Some run of `re.findall(r"\d+", s)` is longer than `int()` accepts, so reading it raises `ValueError`. */
  predicate TooLongRun(s: string)
    decreases |s|
  {
    if s == [] then false
    else if !IsDigit(s[0]) then TooLongRun(s[1..])
    else
      var k := DigitRunLength(s);
      k > IntMaxStrDigits || TooLongRun(s[k..])
  }

  /** A text of digits only is one run, so it is too long exactly when the text is. */
  lemma {:induction false} AllDigitsIsOneRun(s: string)
    requires s != [] && AllDigits(s)
    ensures DigitRunLength(s) == |s|
    ensures TooLongRun(s) <==> |s| > IntMaxStrDigits
  {
    if |s| > 1 {
      AllDigitsIsOneRun(s[1..]);
    }
  }

  /** No run is longer than the text that holds it. */
  lemma {:induction false} ShortTextHasNoLongRun(s: string)
    requires |s| <= IntMaxStrDigits
    ensures !TooLongRun(s)
    decreases |s|
  {
    if s != [] {
      if !IsDigit(s[0]) {
        ShortTextHasNoLongRun(s[1..]);
      } else {
        ShortTextHasNoLongRun(s[DigitRunLength(s)..]);
      }
    }
  }

  function HexDigitChar(d: nat): char
    requires d < 16
  {
    if d < 10 then ('0' as int + d) as char else ('a' as int + d - 10) as char
  }

  /** The quote `repr` puts around a string: double only when the text holds `'` and no `"`. */
  function ReprQuote(s: string): (q: char)
    ensures q == '\'' || q == '"'
  {
    if '\'' in s && '"' !in s then '"' else '\''
  }

  /** How `repr` writes one character inside quotes `quote`. */
  function EscapeChar(c: char, quote: char): string {
    if c == quote || c == '\\' then ['\\', c]
    else if c == '\t' then "\\t"
    else if c == '\n' then "\\n"
    else if c == '\r' then "\\r"
    else if c < ' ' || c as int == 0x7f then "\\x" + [HexDigitChar(c as int / 16), HexDigitChar(c as int % 16)]
    else [c]
  }

  function Escaped(s: string, quote: char): string
    decreases |s|
  {
    if s == [] then "" else EscapeChar(s[0], quote) + Escaped(s[1..], quote)
  }

  /** Python's `repr` of a string. */
  function StrRepr(s: string): string {
    var quote := ReprQuote(s);
    [quote] + Escaped(s, quote) + [quote]
  }

  /** Printable ASCII with no quote or backslash is written as it is. */
  predicate PlainChar(c: char) {
    ' ' <= c && c as int < 0x7f && c != '\'' && c != '"' && c != '\\'
  }

  /** A string of plain characters is shown between single quotes, unchanged. */
  lemma {:induction false} ReprOfPlain(s: string)
    requires forall k | 0 <= k < |s| :: PlainChar(s[k])
    ensures StrRepr(s) == "'" + s + "'"
  {
    PlainEscaped(s, '\'');
  }

  lemma {:induction false} PlainEscaped(s: string, quote: char)
    requires quote == '\'' || quote == '"'
    requires forall k | 0 <= k < |s| :: PlainChar(s[k])
    ensures Escaped(s, quote) == s
    decreases |s|
  {
    if s != [] {
      assert PlainChar(s[0]);
      PlainEscaped(s[1..], quote);
      assert s == [s[0]] + s[1..];
    }
  }

  /** Python's `a < b` on strings: code-point lexicographic order. */
  predicate StrLt(a: string, b: string)
    decreases |a|
  {
    if a == [] then b != []
    else if b == [] then false
    else if a[0] != b[0] then a[0] < b[0]
    else StrLt(a[1..], b[1..])
  }

  lemma StrLtIrreflexive(a: string)
    ensures !StrLt(a, a)
  {
  }

  lemma {:induction false} StrLtTransitive(a: string, b: string, c: string)
    requires StrLt(a, b) && StrLt(b, c)
    ensures StrLt(a, c)
    decreases |a|
  {
    if a != [] && b != [] && c != [] && a[0] == b[0] && b[0] == c[0] {
      StrLtTransitive(a[1..], b[1..], c[1..]);
    }
  }

  lemma {:induction false} StrLtTotal(a: string, b: string)
    requires a != b
    ensures StrLt(a, b) || StrLt(b, a)
    decreases |a|
  {
    if a != [] && b != [] && a[0] == b[0] {
      assert a == [a[0]] + a[1..] && b == [b[0]] + b[1..];
      StrLtTotal(a[1..], b[1..]);
    }
  }
}
