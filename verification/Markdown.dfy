/** `markdown_sections`: a line machine that cuts a document at headings outside
    code fences. Sections are described by spans of line numbers. */
module Markdown {
  import opened Text
  import opened Spans

  datatype Section = Section(heading: string, text: string)

  /** `line.startswith("```")` */
  predicate IsFence(line: string) {
    |line| >= 3 && line[0] == '`' && line[1] == '`' && line[2] == '`'
  }

  /** The fence flag after reading the first `n` lines. */
  function InFence(lines: seq<string>, n: nat): bool
    requires n <= |lines|
  {
    if n == 0 then false
    else if IsFence(lines[n - 1]) then !InFence(lines, n - 1) else InFence(lines, n - 1)
  }

  /** The index after the run of hashes that starts at `i`. */
  function HashesEnd(s: string, i: nat): (n: nat)
    requires i <= |s|
    ensures i <= n <= |s|
    decreases |s| - i
  {
    if i < |s| && s[i] == '#' then HashesEnd(s, i + 1) else i
  }

  /** Matches `^#{1,6}\s+`. */
  predicate IsHeading(s: string) {
    var n := HashesEnd(s, 0);
    1 <= n <= 6 && n < |s| && IsSpace(s[n])
  }

  lemma HeadingFacts(s: string)
    requires IsHeading(s)
    ensures s[0] == '#' && !IsSpace(s[0]) && !Blank(s) && !IsFence(s) && LStrip(s) == s
  {
    CharFacts();
  }

  /** Group 2 of `^(#{1,6})\s+(.+?)\s*$`, stripped; empty when nothing follows the hashes. */
  function HeadingTitle(line: string): string {
    if IsHeading(line) then Strip(line[HashesEnd(line, 0)..]) else ""
  }

  ghost predicate AllHashes(s: string, n: nat) {
    n <= |s| && forall i :: 0 <= i < n ==> s[i] == '#'
  }

  ghost predicate AllSpace(s: string, lo: nat, hi: nat) {
    hi <= |s| && forall i :: lo <= i < hi ==> IsSpace(s[i])
  }

  lemma {:induction false} HashesEndIs(s: string, i: nat, n: nat)
    requires i <= n <= |s| && (forall j :: i <= j < n ==> s[j] == '#') && (n < |s| ==> s[n] != '#')
    ensures HashesEnd(s, i) == n
    decreases n - i
  {
    if i < n {
      HashesEndIs(s, i + 1, n);
    }
  }

  lemma {:induction false} HashesEndFacts(s: string, i: nat)
    requires i <= |s|
    ensures var n := HashesEnd(s, i); (forall j :: i <= j < n ==> s[j] == '#') && (n < |s| ==> s[n] != '#')
    decreases |s| - i
  {
    if i < |s| && s[i] == '#' {
      HashesEndFacts(s, i + 1);
    }
  }

  /** A heading starts with one to six hashes and then whitespace. */
  lemma IsHeadingIff(s: string)
    ensures IsHeading(s) <==> exists n :: 1 <= n <= 6 && AllHashes(s, n) && n < |s| && IsSpace(s[n])
  {
    CharFacts();
    HashesEndFacts(s, 0);
    if IsHeading(s) {
      assert AllHashes(s, HashesEnd(s, 0));
    }
    if n :| 1 <= n <= 6 && AllHashes(s, n) && n < |s| && IsSpace(s[n]) {
      HashesEndIs(s, 0, n);
    }
  }

  lemma TailStrips(line: string, n: nat, a: nat, b: nat)
    requires n <= a <= b <= |line| && AllSpace(line, n, a) && AllSpace(line, b, |line|)
    requires if a < b then !IsSpace(line[a]) && !IsSpace(line[b - 1]) else b == |line|
    ensures Strip(line[n..]) == line[a..b]
  {
    StripIs(line[n..], a - n, b - n);
    assert line[n..][a - n..b - n] == line[a..b];
  }

  /** Its title is what stands between the whitespace behind the hashes and that at the end. */
  lemma HeadingTitleIs(line: string, n: nat, a: nat, b: nat)
    requires 1 <= n <= 6 && n < a <= b <= |line| && AllHashes(line, n)
    requires AllSpace(line, n, a) && AllSpace(line, b, |line|)
    requires if a < b then !IsSpace(line[a]) && !IsSpace(line[b - 1]) else b == |line|
    ensures IsHeading(line) && HeadingTitle(line) == line[a..b]
  {
    CharFacts();
    HashesEndIs(line, 0, n);
    TailStrips(line, n, a, b);
  }

  /** A heading outside code fences. */
  predicate StartsSection(lines: seq<string>, i: nat)
    requires i < |lines|
  {
    !InFence(lines, i + 1) && IsHeading(lines[i])
  }

  function SectionTitle(lines: seq<string>, lo: nat): string
    requires lo < |lines|
  {
    if StartsSection(lines, lo) then HeadingTitle(lines[lo]) else "Document"
  }

  function SectionText(lines: seq<string>): string {
    Strip(Join(lines)) + "\n"
  }

  /** The first line from `i` on that starts a section, or the end. */
  function SectionEnd(lines: seq<string>, i: nat): (k: nat)
    requires i <= |lines|
    ensures i <= k <= |lines|
    decreases |lines| - i
  {
    if i == |lines| || StartsSection(lines, i) then i else SectionEnd(lines, i + 1)
  }

  function RenderSection(lines: seq<string>, span: Span): Section
    requires span.lo < span.hi <= |lines|
  {
    Section(SectionTitle(lines, span.lo), SectionText(lines[span.lo..span.hi]))
  }

  function SectionsFrom(lines: seq<string>, lo: nat): seq<Section>
    requires lo <= |lines|
    decreases |lines| - lo
  {
    if lo == |lines| then []
    else
      var hi := SectionEnd(lines, lo + 1);
      [RenderSection(lines, Span(lo, hi))] + SectionsFrom(lines, hi)
  }

  function Sections(text: string): seq<Section> {
    SectionsFrom(SplitLines(text), 0)
  }

  function MarksTo(lines: seq<string>, n: nat): (marks: seq<bool>)
    requires n <= |lines|
    ensures |marks| == n
  {
    if n == 0 then [] else MarksTo(lines, n - 1) + [StartsSection(lines, n - 1)]
  }

  /** Which lines start a section. */
  function SectionMarks(lines: seq<string>): (marks: seq<bool>)
    ensures |marks| == |lines|
  {
    MarksTo(lines, |lines|)
  }

  lemma {:induction false} MarkAt(lines: seq<string>, n: nat, i: nat)
    requires i < n <= |lines|
    ensures MarksTo(lines, n)[i] == StartsSection(lines, i)
  {
    if i < n - 1 {
      MarkAt(lines, n - 1, i);
    }
  }

  function SectionSpans(lines: seq<string>): (spans: seq<Span>)
    ensures forall k :: 0 <= k < |spans| ==> spans[k].lo < spans[k].hi <= |lines|
  {
    CutSpans(SectionMarks(lines), 0)
  }

  lemma {:induction false} SectionEndIsNextMark(lines: seq<string>, i: nat)
    requires i <= |lines|
    ensures SectionEnd(lines, i) == NextMark(SectionMarks(lines), i)
    decreases |lines| - i
  {
    if i < |lines| {
      MarkAt(lines, |lines|, i);
      if !StartsSection(lines, i) {
        SectionEndIsNextMark(lines, i + 1);
      }
    }
  }

  ghost predicate AreRendered(lines: seq<string>, spans: seq<Span>, sections: seq<Section>) {
    && |sections| == |spans|
    && (forall k :: 0 <= k < |spans| ==> spans[k].lo < spans[k].hi <= |lines|)
    && forall k :: 0 <= k < |spans| ==> sections[k] == RenderSection(lines, spans[k])
  }

  lemma PrependSection(lines: seq<string>, span: Span, spans: seq<Span>, sections: seq<Section>)
    requires AreRendered(lines, spans, sections) && span.lo < span.hi <= |lines|
    ensures AreRendered(lines, [span] + spans, [RenderSection(lines, span)] + sections)
  {
  }

  lemma {:induction false} SectionsRenderSpans(lines: seq<string>, lo: nat)
    requires lo <= |lines|
    ensures AreRendered(lines, CutSpans(SectionMarks(lines), lo), SectionsFrom(lines, lo))
    decreases |lines| - lo
  {
    if lo < |lines| {
      var hi := SectionEnd(lines, lo + 1);
      SectionEndIsNextMark(lines, lo + 1);
      SectionsRenderSpans(lines, hi);
      PrependSection(lines, Span(lo, hi), CutSpans(SectionMarks(lines), hi), SectionsFrom(lines, hi));
    }
  }

  /** Section `k` renders span `k`. Grouping before stripping loses, duplicates and moves
      no line; each group after the first begins with a heading outside fences and no later
      line of a group is one; and no other grouping of the lines does this. */
  lemma SectionsAreTheSectioning(text: string, spans: seq<Span>)
    ensures var lines := SplitLines(text);
            && |Sections(text)| == |SectionSpans(lines)|
            && (forall k :: 0 <= k < |Sections(text)| ==> Sections(text)[k] == RenderSection(lines, SectionSpans(lines)[k]))
            && Concatenate(lines, SectionSpans(lines)) == lines
            && (CutAtMarks(SectionMarks(lines), 0, spans) <==> spans == SectionSpans(lines))
  {
    var lines := SplitLines(text);
    var marks := SectionMarks(lines);
    SectionsRenderSpans(lines, 0);
    CutSpansTile(marks, 0);
    CutConcatenate(lines, marks, 0);
    if CutAtMarks(marks, 0, spans) {
      CutUnique(marks, 0, spans);
    }
  }

  lemma FirstSection(lines: seq<string>, lo: nat, hi: nat, before: seq<Section>)
    requires lo < |lines| && hi == SectionEnd(lines, lo + 1)
    ensures before + SectionsFrom(lines, lo)
         == before + [Section(SectionTitle(lines, lo), SectionText(lines[lo..hi]))] + SectionsFrom(lines, hi)
  {
    AppendFirst(before + SectionsFrom(lines, lo), before, RenderSection(lines, Span(lo, hi)), SectionsFrom(lines, hi));
  }

  /** `append_section` */
  method AppendSection(sections: seq<Section>, heading: string, lines: seq<string>) returns (appended: seq<Section>)
    ensures appended == sections + [Section(heading, SectionText(lines))]
  {
    appended := sections + [Section(heading, Strip(Join(lines)) + "\n")];
  }

  /** What holds before line `i` is read: the lines from `lo` on are the open section. */
  ghost predicate Cutting(total: seq<Section>, lines: seq<string>, i: nat, lo: nat, inFence: bool, current: seq<string>, heading: string,
                          sections: seq<Section>) {
    && lo <= i <= |lines| && (lo == i ==> i == 0)
    && inFence == InFence(lines, i) && current == lines[lo..i]
    && (i > 0 ==> SectionEnd(lines, lo + 1) == SectionEnd(lines, i))
    && heading == (if i > 0 then SectionTitle(lines, lo) else "Document")
    && total == sections + SectionsFrom(lines, lo)
  }

  lemma SectionGoesOn(total: seq<Section>, lines: seq<string>, i: nat, lo: nat, inFence: bool, current: seq<string>, heading: string,
                      sections: seq<Section>)
    requires i < |lines| && Cutting(total, lines, i, lo, inFence, current, heading, sections)
    requires !(StartsSection(lines, i) && current != [])
    ensures Cutting(total, lines, i + 1, lo, InFence(lines, i + 1), current + [lines[i]],
                    if StartsSection(lines, i) then HeadingTitle(lines[i]) else heading, sections)
  {
    SliceSnoc(lines, lo, i);
  }

  lemma ClosedSection(total: seq<Section>, lines: seq<string>, lo: nat, hi: nat, current: seq<string>, heading: string,
                      sections: seq<Section>)
    requires lo < |lines| && hi == SectionEnd(lines, lo + 1) && total == sections + SectionsFrom(lines, lo)
    requires current == lines[lo..hi] && heading == SectionTitle(lines, lo)
    ensures total == sections + [Section(heading, SectionText(current))] + SectionsFrom(lines, hi)
  {
    FirstSection(lines, lo, hi, sections);
  }

  lemma SectionCloses(total: seq<Section>, lines: seq<string>, i: nat, lo: nat, inFence: bool, current: seq<string>, heading: string,
                      sections: seq<Section>)
    requires i < |lines| && Cutting(total, lines, i, lo, inFence, current, heading, sections)
    requires StartsSection(lines, i) && current != []
    ensures Cutting(total, lines, i + 1, i, InFence(lines, i + 1), [lines[i]], HeadingTitle(lines[i]),
                    sections + [Section(heading, SectionText(current))])
  {
    assert SectionEnd(lines, i) == i;
    ClosedSection(total, lines, lo, i, current, heading, sections);
    SliceSnoc(lines, i, i);
  }

  /** How line `i` changes the open section and the sections. */
  lemma StepSection(total: seq<Section>, lines: seq<string>, i: nat, lo: nat, inFence: bool, current: seq<string>, heading: string,
                    sections: seq<Section>, lo': nat, inFence': bool, current': seq<string>, heading': string, sections': seq<Section>)
    requires i < |lines| && Cutting(total, lines, i, lo, inFence, current, heading, sections)
    requires inFence' == if IsFence(lines[i]) then !inFence else inFence
    requires heading' == if !inFence' && IsHeading(lines[i]) then HeadingTitle(lines[i]) else heading
    requires if !inFence' && IsHeading(lines[i]) && current != []
             then lo' == i && current' == [] + [lines[i]] && sections' == sections + [Section(heading, SectionText(current))]
             else lo' == lo && current' == current + [lines[i]] && sections' == sections
    ensures Cutting(total, lines, i + 1, lo', inFence', current', heading', sections')
  {
    assert [] + [lines[i]] == [lines[i]];
    if StartsSection(lines, i) && current != [] {
      SectionCloses(total, lines, i, lo, inFence, current, heading, sections);
    } else {
      SectionGoesOn(total, lines, i, lo, inFence, current, heading, sections);
    }
  }

  lemma LastSection(total: seq<Section>, lines: seq<string>, lo: nat, inFence: bool, current: seq<string>, heading: string, sections: seq<Section>)
    requires Cutting(total, lines, |lines|, lo, inFence, current, heading, sections)
    ensures total == if current == [] then sections else sections + [Section(heading, SectionText(current))]
  {
    if current != [] {
      ClosedSection(total, lines, lo, |lines|, current, heading, sections);
      assert SectionsFrom(lines, |lines|) == [];
    }
  }

  /** The loop of `markdown_sections`; `lo` is the first line of the open section. */
  method CutLines(lines: seq<string>) returns (sections: seq<Section>)
    ensures sections == SectionsFrom(lines, 0)
  {
    sections := [];
    var current: seq<string> := [];
    var currentHeading := "Document";
    var inFence := false;
    ghost var lo, total := 0, SectionsFrom(lines, 0);
    for i := 0 to |lines|
      invariant Cutting(total, lines, i, lo, inFence, current, currentHeading, sections)
    {
      ghost var was, before, open, title, closed := lo, inFence, current, currentHeading, sections;
      var line := lines[i];
      var fence := IsFence(line);
      inFence := if fence then !inFence else inFence;
      var startsHeading := !inFence && IsHeading(line);
      if startsHeading && current != [] {
        sections := AppendSection(sections, currentHeading, current);
        current := [];
        lo := i;
      }
      currentHeading := if startsHeading then HeadingTitle(line) else currentHeading;
      current := current + [line];
      StepSection(total, lines, i, was, before, open, title, closed, lo, inFence, current, currentHeading, sections);
    }
    LastSection(total, lines, lo, inFence, current, currentHeading, sections);
    if current != [] {
      sections := AppendSection(sections, currentHeading, current);
    }
  }

  /** `markdown_sections` */
  method MarkdownSections(text: string) returns (sections: seq<Section>)
    ensures sections == Sections(text)
  {
    sections := CutLines(SplitLines(text));
  }
}
