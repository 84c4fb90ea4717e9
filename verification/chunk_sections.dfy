/**
 * Markdown sectioning: headings are lines that start with one to six '#'
 * followed by whitespace and text; each section runs from its heading to the
 * next heading, and carries the breadcrumb of enclosing headings.
 */
module ChunkSections {
  import opened Wrappers
  import opened Text

  datatype Heading = Heading(pos: nat, level: nat, title: string)

  /** The index of the first '\n' at or after `i`, or `|text|`. */
  function LineEnd(text: string, i: nat): (e: nat)
    requires i <= |text|
    ensures i <= e <= |text|
    ensures e < |text| ==> text[e] == '\n'
    ensures forall k | i <= k < e :: text[k] != '\n'
    decreases |text| - i
  {
    if i == |text| || text[i] == '\n' then i else LineEnd(text, i + 1)
  }

  /** The number of '#' characters a line starts with. */
  function HashRun(line: string): (h: nat)
    ensures h <= |line|
    ensures forall k | 0 <= k < h :: line[k] == '#'
    ensures h < |line| ==> line[h] != '#'
  {
    if line != [] && line[0] == '#' then 1 + HashRun(line[1..]) else 0
  }

  /**
   * The level and title of a heading line: one to six '#', then at least one
   * whitespace character, then at least one more character; the title is the
   * rest of the line, stripped.
   */
  function HeadingOf(line: string): (r: Option<(nat, string)>)
    ensures r.Some? ==> 1 <= r.value.0 <= 6 && r.value.0 + 2 <= |line|
    ensures r.Some? ==> r.value.1 == Strip(line[r.value.0..])
    ensures r.Some? ==> line[0] == '#' && IsSpace(line[r.value.0])
  {
    var h := HashRun(line);
    if 1 <= h <= 6 && h + 2 <= |line| && IsSpace(line[h]) then Some((h, Strip(line[h..]))) else None
  }

  /** The headings of the lines starting at line start `i`, in order. */
  function HeadingsFrom(text: string, i: nat): (hs: seq<Heading>)
    requires i <= |text|
    ensures forall k | 0 <= k < |hs| :: i <= hs[k].pos < |text| && text[hs[k].pos] == '#' && 1 <= hs[k].level <= 6
    ensures forall a, b | 0 <= a < b < |hs| :: hs[a].pos < hs[b].pos
    decreases |text| - i
  {
    var e := LineEnd(text, i);
    var here := HeadingOf(text[i..e]);
    var rest := if e < |text| then HeadingsFrom(text, e + 1) else [];
    if here.Some? then
      var h := Heading(i, here.value.0, here.value.1);
      assert text[i..e][0] == text[i];
      PrependHeading(text, h, rest, e + 1);
      [h] + rest
    else rest
  }

  /** A heading placed before every later heading keeps the list in order. */
  lemma PrependHeading(text: string, h: Heading, rest: seq<Heading>, lo: nat)
    requires h.pos < lo && h.pos < |text| && text[h.pos] == '#' && 1 <= h.level <= 6
    requires forall k | 0 <= k < |rest| :: lo <= rest[k].pos < |text| && text[rest[k].pos] == '#' && 1 <= rest[k].level <= 6
    requires forall a, b | 0 <= a < b < |rest| :: rest[a].pos < rest[b].pos
    ensures var hs := [h] + rest;
      && (forall k | 0 <= k < |hs| :: h.pos <= hs[k].pos < |text| && text[hs[k].pos] == '#' && 1 <= hs[k].level <= 6)
      && (forall a, b | 0 <= a < b < |hs| :: hs[a].pos < hs[b].pos)
  {
    var hs := [h] + rest;
    forall a, b | 0 <= a < b < |hs| ensures hs[a].pos < hs[b].pos {
      assert hs[b] == rest[b - 1];
      if a > 0 {
        assert hs[a] == rest[a - 1];
      }
    }
  }

  /** `_extract_headings`: every heading of the text with its offset, level and title. */
  function ExtractHeadings(text: string): (hs: seq<Heading>)
    ensures forall k | 0 <= k < |hs| :: hs[k].pos < |text| && text[hs[k].pos] == '#' && 1 <= hs[k].level <= 6
    ensures forall a, b | 0 <= a < b < |hs| :: hs[a].pos < hs[b].pos
    ensures Placed(text, hs)
  {
    HeadingsFrom(text, 0)
  }

  datatype Section = Section(heading: Option<string>, level: nat, content: string, breadcrumb: seq<string>)

  datatype Crumb = Crumb(level: nat, title: string)

  /** Pops every entry whose level is at least `level`. */
  function PopAtLeast(stack: seq<Crumb>, level: nat): (r: seq<Crumb>)
    ensures r <= stack
    ensures r == [] || r[|r| - 1].level < level
  {
    if stack != [] && stack[|stack| - 1].level >= level then PopAtLeast(stack[..|stack| - 1], level) else stack
  }

  /** The breadcrumb stack after the first `i` headings. */
  function StackAfter(hs: seq<Heading>, i: nat): seq<Crumb>
    requires i <= |hs|
  {
    if i == 0 then [] else PopAtLeast(StackAfter(hs, i - 1), hs[i - 1].level) + [Crumb(hs[i - 1].level, hs[i - 1].title)]
  }

  function Titles(stack: seq<Crumb>): (ts: seq<string>)
    ensures |ts| == |stack| && forall k | 0 <= k < |stack| :: ts[k] == stack[k].title
  {
    seq(|stack|, k requires 0 <= k < |stack| => stack[k].title)
  }

  predicate LevelsIncrease(stack: seq<Crumb>) {
    forall a, b | 0 <= a < b < |stack| :: stack[a].level < stack[b].level
  }

  /** The breadcrumb stack has strictly increasing levels and ends with the latest heading. */
  lemma {:induction false} StackShape(hs: seq<Heading>, i: nat)
    requires 1 <= i <= |hs|
    ensures LevelsIncrease(StackAfter(hs, i))
    ensures var st := StackAfter(hs, i); st[|st| - 1] == Crumb(hs[i - 1].level, hs[i - 1].title)
  {
    var prev := StackAfter(hs, i - 1);
    var c := Crumb(hs[i - 1].level, hs[i - 1].title);
    if i > 1 {
      StackShape(hs, i - 1);
    }
    PushKeepsShape(prev, c);
  }

  /** Popping the entries at or below a new heading's level and pushing it keeps the levels increasing. */
  lemma PushKeepsShape(stack: seq<Crumb>, c: Crumb)
    requires LevelsIncrease(stack)
    ensures LevelsIncrease(PopAtLeast(stack, c.level) + [c])
  {
    var popped := PopAtLeast(stack, c.level);
    assert popped == stack[..|popped|];
    PrefixLevelsIncrease(stack, |popped|);
    PushLevelsIncrease(popped, c);
  }

  lemma PrefixLevelsIncrease(stack: seq<Crumb>, n: nat)
    requires LevelsIncrease(stack) && n <= |stack|
    ensures LevelsIncrease(stack[..n])
  {
  }

  lemma PushLevelsIncrease(stack: seq<Crumb>, c: Crumb)
    requires LevelsIncrease(stack) && (stack == [] || stack[|stack| - 1].level < c.level)
    ensures LevelsIncrease(stack + [c])
  {
    var st := stack + [c];
    forall a, b | 0 <= a < b < |st| ensures st[a].level < st[b].level {
      if b == |stack| && a < |stack| - 1 {
        assert stack[a].level < stack[|stack| - 1].level;
      }
    }
  }

  /** Every breadcrumb entry is one of the headings seen so far. */
  lemma {:induction false} StackFromHeadings(hs: seq<Heading>, i: nat)
    requires i <= |hs|
    ensures forall c | c in StackAfter(hs, i) :: c in Crumbs(hs[..i])
  {
    if i > 0 {
      StackFromHeadings(hs, i - 1);
      var prev := StackAfter(hs, i - 1);
      var popped := PopAtLeast(prev, hs[i - 1].level);
      assert forall c | c in popped :: c in prev;
      CrumbsSnoc(hs, i - 1);
    }
  }

  function Crumbs(hs: seq<Heading>): (cs: seq<Crumb>)
    ensures |cs| == |hs| && forall k | 0 <= k < |hs| :: cs[k] == Crumb(hs[k].level, hs[k].title)
  {
    seq(|hs|, k requires 0 <= k < |hs| => Crumb(hs[k].level, hs[k].title))
  }

  lemma CrumbsSnoc(hs: seq<Heading>, i: nat)
    requires i < |hs|
    ensures Crumbs(hs[..i + 1]) == Crumbs(hs[..i]) + [Crumb(hs[i].level, hs[i].title)]
  {
  }

  /** Headings at increasing offsets inside the text. */
  predicate Placed(text: string, hs: seq<Heading>) {
    && (forall k | 0 <= k < |hs| :: hs[k].pos < |text|)
    && (forall a, b | 0 <= a < b < |hs| :: hs[a].pos < hs[b].pos)
  }

  /** The end of section `i`: the next heading's offset, or the end of the text. */
  function SectionEnd(text: string, hs: seq<Heading>, i: nat): (e: nat)
    requires i < |hs| && Placed(text, hs)
    ensures hs[i].pos < e <= |text|
  {
    if i + 1 < |hs| then hs[i + 1].pos else |text|
  }

  /** The section of heading `i`. */
  function SectionAt(text: string, hs: seq<Heading>, i: nat): Section
    requires Placed(text, hs) && i < |hs|
  {
    Section(Some(hs[i].title), hs[i].level, Strip(text[hs[i].pos..SectionEnd(text, hs, i)]), Titles(StackAfter(hs, i + 1)))
  }

  /** The sections of the first `i` headings. */
  function SectionsUpTo(text: string, hs: seq<Heading>, i: nat): (ss: seq<Section>)
    requires Placed(text, hs) && i <= |hs|
    ensures |ss| == i
  {
    if i == 0 then [] else SectionsUpTo(text, hs, i - 1) + [SectionAt(text, hs, i - 1)]
  }

  /** The sections of `_split_into_sections`, as a function of the text. */
  function Sections(text: string): (ss: seq<Section>)
    ensures |ss| >= 1
  {
    var hs := ExtractHeadings(text);
    if hs == [] then [Section(None, 0, text, [])]
    else SectionsUpTo(text, hs, |hs|)
  }

  /**
   * `_split_into_sections`: one section per heading, with the breadcrumb
   * kept on a stack that pops every entry of the same or a deeper level
   * before pushing the new heading.
   */
  method SplitIntoSections(text: string) returns (sections: seq<Section>)
    ensures sections == Sections(text)
  {
    var headings := ExtractHeadings(text);
    if headings == [] {
      return [Section(None, 0, text, [])];
    }
    sections := SectionsOfHeadings(text, headings);
  }

  /** The loop of `_split_into_sections` over the headings found. */
  method SectionsOfHeadings(text: string, headings: seq<Heading>) returns (sections: seq<Section>)
    requires Placed(text, headings)
    ensures sections == SectionsUpTo(text, headings, |headings|)
  {
    sections := [];
    var breadcrumbStack: seq<Crumb> := [];
    var i := 0;
    while i < |headings|
      invariant 0 <= i <= |headings|
      invariant breadcrumbStack == StackAfter(headings, i)
      invariant sections == SectionsUpTo(text, headings, i)
    {
      var h := headings[i];
      var endPos := if i + 1 < |headings| then headings[i + 1].pos else |text|;
      var content := Strip(text[h.pos..endPos]);
      ghost var before := breadcrumbStack;
      while breadcrumbStack != [] && breadcrumbStack[|breadcrumbStack| - 1].level >= h.level
        invariant PopAtLeast(breadcrumbStack, h.level) == PopAtLeast(before, h.level)
        decreases |breadcrumbStack|
      {
        PopOne(breadcrumbStack, h.level);
        breadcrumbStack := breadcrumbStack[..|breadcrumbStack| - 1];
      }
      breadcrumbStack := breadcrumbStack + [Crumb(h.level, h.title)];
      StackAfterStep(headings, i, before, breadcrumbStack);
      var breadcrumb := Titles(breadcrumbStack);
      assert Section(Some(h.title), h.level, content, breadcrumb) == SectionAt(text, headings, i);
      assert SectionsUpTo(text, headings, i + 1) == SectionsUpTo(text, headings, i) + [SectionAt(text, headings, i)];
      sections := sections + [Section(Some(h.title), h.level, content, breadcrumb)];
      i := i + 1;
    }
  }

  lemma {:induction false} SectionsUpToAt(text: string, hs: seq<Heading>, n: nat, i: nat)
    requires Placed(text, hs) && i < n <= |hs|
    ensures SectionsUpTo(text, hs, n)[i] == SectionAt(text, hs, i)
  {
    var prefix := SectionsUpTo(text, hs, n - 1);
    var last := SectionAt(text, hs, n - 1);
    assert SectionsUpTo(text, hs, n) == prefix + [last];
    if i < n - 1 {
      SectionsUpToAt(text, hs, n - 1, i);
      assert (prefix + [last])[i] == prefix[i];
    } else {
      assert |prefix| == i;
      assert (prefix + [last])[i] == last;
    }
  }

  lemma PopOne(stack: seq<Crumb>, level: nat)
    requires stack != [] && stack[|stack| - 1].level >= level
    ensures PopAtLeast(stack[..|stack| - 1], level) == PopAtLeast(stack, level)
  {
  }

  lemma StackAfterStep(hs: seq<Heading>, i: nat, before: seq<Crumb>, after: seq<Crumb>)
    requires i < |hs| && before == StackAfter(hs, i)
    requires after == PopAtLeast(before, hs[i].level) + [Crumb(hs[i].level, hs[i].title)]
    ensures after == StackAfter(hs, i + 1)
  {
  }

  /** Without headings the whole text is one section with no heading, level 0 and an empty breadcrumb. */
  lemma NoHeadingsOneSection(text: string)
    requires ExtractHeadings(text) == []
    ensures Sections(text) == [Section(None, 0, text, [])]
  {
  }

  /**
   * With headings, section `i` belongs to heading `i`: its content is the
   * stripped text from that heading up to the next one, and its breadcrumb
   * ends with its own title; the text before the first heading is in no
   * section.
   */
  lemma SectionsFollowHeadings(text: string, i: int)
    requires 0 <= i < |ExtractHeadings(text)|
    ensures var hs := ExtractHeadings(text);
      var s := Sections(text)[i];
      && |Sections(text)| == |hs|
      && s.heading == Some(hs[i].title) && s.level == hs[i].level
      && s.content == Strip(text[hs[i].pos..if i + 1 < |hs| then hs[i + 1].pos else |text|])
      && s.breadcrumb != [] && s.breadcrumb[|s.breadcrumb| - 1] == hs[i].title
  {
    StackShape(ExtractHeadings(text), i + 1);
    SectionsUpToAt(text, ExtractHeadings(text), |ExtractHeadings(text)|, i);
  }

  /** A heading line in the middle of a text starts a section with its title. */
  lemma HeadingExample()
    ensures ExtractHeadings("intro\n## Budget  \nbody") == [Heading(6, 2, "Budget")]
  {
    var t := "intro\n## Budget  \nbody";
    LineEndAt(t, 0, 5);
    assert t[0..5] == "intro";
    PlainLines();
    ExampleMiddle();
  }

  lemma ExampleTail()
    ensures HeadingsFrom("intro\n## Budget  \nbody", 18) == []
  {
    var t := "intro\n## Budget  \nbody";
    LineEndAt(t, 18, 22);
    assert t[18..22] == "body";
    PlainLines();
  }

  lemma ExampleMiddle()
    ensures HeadingsFrom("intro\n## Budget  \nbody", 6) == [Heading(6, 2, "Budget")]
  {
    var t := "intro\n## Budget  \nbody";
    LineEndAt(t, 6, 17);
    assert t[6..17] == "## Budget  ";
    ExampleHeadingLine();
    ExampleTail();
  }

  lemma PlainLines()
    ensures HeadingOf("intro") == None && HeadingOf("body") == None
  {
  }

  /** `LineEnd` finds the first line break. */
  lemma {:induction false} LineEndAt(text: string, i: nat, e: nat)
    requires i <= e <= |text| && (e == |text| || text[e] == '\n')
    requires forall k | i <= k < e :: text[k] != '\n'
    ensures LineEnd(text, i) == e
    decreases e - i
  {
    if i < e {
      LineEndAt(text, i + 1, e);
    }
  }

  lemma ExampleHeadingLine()
    ensures HeadingOf("## Budget  ") == Some((2, "Budget"))
  {
    var line := "## Budget  ";
    assert HashRun(line) == 2 by {
      assert line[1..][1..] == " Budget  ";
    }
    assert line[2..] == " Budget  ";
    ExampleStrip();
  }

  lemma ExampleStrip()
    ensures Strip(" Budget  ") == "Budget"
  {
    var s := " Budget  ";
    assert SkipSpaces(s, 0) == 1 by {
      assert SkipSpaces(s, 1) == 1;
    }
    assert SkipSpacesBack(s, 1, 9) == 7 by {
      assert SkipSpacesBack(s, 1, 7) == 7;
      assert SkipSpacesBack(s, 1, 8) == 7;
    }
    assert s[1..7] == "Budget";
  }
}
