/** Lines, sections, blocks and chunks, stated over characters and counts. */
module LineRules {
  import opened Basics
  import opened Text
  import opened Spans
  import opened Markdown
  import opened Blocks
  import opened Chunking
  import opened Pairs
  import Timeout

  // ----- characters -----

  lemma {:induction false} InRangesIff(n: int, ranges: seq<(int, int)>)
    ensures InRanges(n, ranges) <==> exists i :: 0 <= i < |ranges| && ranges[i].0 <= n <= ranges[i].1
    decreases |ranges|
  {
    if ranges != [] {
      InRangesIff(n, ranges[1..]);
      assert forall i :: 0 < i < |ranges| ==> ranges[i] == ranges[1..][i - 1];
    }
  }

  /** Lines end at line feeds, tabulations, form feeds, carriage returns, the three separators, and the
      next-line, line-separator and paragraph-separator characters. */
  lemma BreakIff(c: char, n: int)
    requires n == c as int
    ensures IsBreak(c) <==> 0x0A <= n <= 0x0D || 0x1C <= n <= 0x1E || n == 0x85 || n == 0x2028 || n == 0x2029
  {
    InRangesIff(n, BREAKS);
    assert |BREAKS| == 4 && BREAKS[0] == (0x0A, 0x0D) && BREAKS[1] == (0x1C, 0x1E) && BREAKS[2] == (0x85, 0x85)
           && BREAKS[3] == (0x2028, 0x2029);
  }

  /** Stripped are those, the tabulator, the unit separator, and the space characters. */
  lemma SpaceIff(c: char, n: int)
    requires n == c as int
    ensures IsSpace(c) <==>
              || 0x09 <= n <= 0x0D || 0x1C <= n <= 0x20 || n == 0x85 || n == 0xA0 || n == 0x1680
              || 0x2000 <= n <= 0x200A || n == 0x2028 || n == 0x2029 || n == 0x202F || n == 0x205F || n == 0x3000
  {
    BreakIff(c, n);
    InRangesIff(n, OTHER_SPACES);
    var s := OTHER_SPACES;
    assert |s| == 8 && s[0] == (0x09, 0x09) && s[1] == (0x1F, 0x20) && s[2] == (0xA0, 0xA0) && s[3] == (0x1680, 0x1680);
    assert s[4] == (0x2000, 0x200A) && s[5] == (0x202F, 0x202F) && s[6] == (0x205F, 0x205F) && s[7] == (0x3000, 0x3000);
  }

  /** The two languages differ in the four separators: words of a command line are not split at them. */
  lemma WordSpaceIff(c: char)
    ensures Timeout.IsSpace(c) <==> IsSpace(c) && !(0x1C <= c as int <= 0x1F)
  {
    SpaceIff(c, c as int);
  }

  // ----- lines -----

  /** A line end: one break, or a carriage return and a line feed together. */
  predicate IsEnd(e: string) {
    e == "\r\n" || (|e| == 1 && IsBreak(e[0]))
  }

  /** Every line with its end, one after the other. */
  function Woven(lines: seq<string>, ends: seq<string>): string
    requires |lines| == |ends|
  {
    if lines == [] then "" else lines[0] + ends[0] + Woven(lines[1..], ends[1..])
  }

  /** Every line but possibly the last has an end; a last line without one is not empty. */
  ghost predicate AreEnds(lines: seq<string>, ends: seq<string>) {
    && |ends| == |lines|
    && forall k :: 0 <= k < |ends| ==> IsEnd(ends[k]) || (k == |ends| - 1 && ends[k] == "" && lines[k] != "")
  }

  /** No line feed follows a carriage return as a line end of its own. */
  ghost predicate KeepsPairs(lines: seq<string>, ends: seq<string>)
    requires |ends| == |lines|
  {
    forall j, k :: 0 <= j < k < |ends| && k == j + 1 && ends[j] == "\r" && lines[k] == "" ==> ends[k] != "\n"
  }

  lemma FirstWoven(line: string, end: string, lines: seq<string>, ends: seq<string>)
    requires |lines| == |ends|
    ensures Woven([line] + lines, [end] + ends) == line + end + Woven(lines, ends)
  {
    assert ([line] + lines)[1..] == lines && ([end] + ends)[1..] == ends;
  }

  lemma FirstEnd(line: string, end: string, lines: seq<string>, ends: seq<string>)
    requires AreEnds(lines, ends) && KeepsPairs(lines, ends) && IsEnd(end)
    requires lines != [] && end == "\r" && lines[0] == "" ==> ends[0] != "\n"
    ensures AreEnds([line] + lines, [end] + ends) && KeepsPairs([line] + lines, [end] + ends)
  {
    var ls, es := [line] + lines, [end] + ends;
    forall j, k | 0 <= j < k < |es| && k == j + 1 && es[j] == "\r" && ls[k] == "" ensures es[k] != "\n" {
      if j > 0 {
        assert ends[j - 1] == es[j] && lines[k - 1] == ls[k] && ends[k - 1] == es[k];
      }
    }
  }

  lemma WovenFirst(lines: seq<string>, ends: seq<string>)
    requires lines != [] && |lines| == |ends|
    ensures Woven(lines, ends) == lines[0] + ends[0] + Woven(lines[1..], ends[1..])
  {
  }

  lemma Regroup(a: string, b: string, e: string, rest: string)
    ensures (a + b) + e + rest == a + (b + e + rest)
  {
  }

  lemma PushedParts(c: char, lines: seq<string>)
    requires lines != []
    ensures |PushChar(c, lines)| == |lines| && PushChar(c, lines)[0] == [c] + lines[0] && PushChar(c, lines)[1..] == lines[1..]
  {
  }

  lemma PushedWoven(c: char, lines: seq<string>, ends: seq<string>)
    requires lines != [] && |lines| == |ends|
    ensures |PushChar(c, lines)| == |lines|
    ensures Woven(PushChar(c, lines), ends) == [c] + Woven(lines, ends)
  {
    PushedParts(c, lines);
    WovenFirst(PushChar(c, lines), ends);
    WovenFirst(lines, ends);
    Regroup([c], lines[0], ends[0], Woven(lines[1..], ends[1..]));
  }

  lemma PushedEnds(c: char, lines: seq<string>, ends: seq<string>)
    requires lines != [] && AreEnds(lines, ends) && KeepsPairs(lines, ends)
    ensures AreEnds(PushChar(c, lines), ends) && KeepsPairs(PushChar(c, lines), ends)
  {
    var ls := PushChar(c, lines);
    assert forall k :: 0 < k < |ls| ==> ls[k] == lines[k];
  }

  lemma EmptyFirst(s: string, lines: seq<string>, ends: seq<string>)
    requires lines != [] && |lines| == |ends| && Woven(lines, ends) == s && lines[0] == "" && ends[0] == "\n"
    ensures s != "" && s[0] == '\n'
  {
  }

  lemma BreakEnd(s: string, w: nat)
    requires s != "" && IsBreak(s[0]) && w == BreakWidth(s)
    ensures IsEnd(s[..w]) && s == "" + s[..w] + s[w..]
    ensures s[..w] == "\r" ==> s[w..] == "" || s[w..][0] != '\n'
  {
  }

  /** A text is its lines with their ends, and no line holds a break. */
  lemma {:induction false} LinesWithEnds(s: string) returns (ends: seq<string>)
    ensures AreEnds(SplitLines(s), ends) && KeepsPairs(SplitLines(s), ends) && AllBreakFree(SplitLines(s))
    ensures Woven(SplitLines(s), ends) == s
    decreases |s|, 0
  {
    ends := [];
    SplitBreakFree(s);
    if s != "" {
      if IsBreak(s[0]) {
        var w := BreakWidth(s);
        var lines := SplitLines(s[w..]);
        var rest := LinesWithEnds(s[w..]);
        BreakEnd(s, w);
        if lines != [] && lines[0] == "" && rest[0] == "\n" {
          EmptyFirst(s[w..], lines, rest);
        }
        FirstEnd("", s[..w], lines, rest);
        FirstWoven("", s[..w], lines, rest);
        ends := [s[..w]] + rest;
      } else {
        ends := LinesOfTail(s[0], s[1..]);
        assert s == [s[0]] + s[1..];
      }
    }
  }

  lemma {:induction false} LinesOfTail(c: char, t: string) returns (ends: seq<string>)
    ensures AreEnds(PushChar(c, SplitLines(t)), ends) && KeepsPairs(PushChar(c, SplitLines(t)), ends)
    ensures Woven(PushChar(c, SplitLines(t)), ends) == [c] + t
    decreases |t|, 1
  {
    var lines := SplitLines(t);
    SplitBreakFree(t);
    if lines == [] {
      ends := [""];
      assert Woven([[c]], [""]) == [c] + "" + Woven([], []);
    } else {
      ends := LinesWithEnds(t);
      PushedEnds(c, lines, ends);
      PushedWoven(c, lines, ends);
    }
  }

  // ----- fences and sections -----

  /** Three backticks start a fence. */
  lemma FenceIff(line: string)
    ensures IsFence(line) <==> "```" <= line
  {
  }

  /** The fence lines among the first `n`. */
  ghost function FencePlaces(lines: seq<string>, n: nat): set<nat>
    requires n <= |lines|
  {
    set i: nat | i < n && "```" <= lines[i]
  }

  /** A line stands inside a fence when an odd number of fence lines comes before. */
  lemma {:induction false} InFenceIff(lines: seq<string>, n: nat)
    requires n <= |lines|
    ensures InFence(lines, n) <==> |FencePlaces(lines, n)| % 2 == 1
  {
    if n == 0 {
      assert FencePlaces(lines, 0) == {};
    } else {
      InFenceIff(lines, n - 1);
      FenceIff(lines[n - 1]);
      var before := FencePlaces(lines, n - 1);
      assert FencePlaces(lines, n) == if "```" <= lines[n - 1] then before + {n - 1} else before;
    }
  }

  /** `s` without the whitespace at its ends. */
  ghost predicate IsStripped(s: string, t: string) {
    exists a, b :: 0 <= a <= b <= |s| && t == s[a..b] && Blank(s[..a]) && Blank(s[b..])
                   && (t != "" ==> !IsSpace(t[0]) && !IsSpace(t[|t| - 1]))
  }

  lemma StripStrips(s: string)
    ensures IsStripped(s, Strip(s))
  {
    var a := SpacesEnd(s, 0);
    SpacesEndFacts(s, 0);
    var tail := s[a..];
    var b := ContentEnd(tail, |tail|);
    ContentEndFacts(tail, |tail|);
    StripFacts(s, tail, a, b);
  }

  lemma StripFacts(s: string, tail: string, a: nat, b: nat)
    requires a <= |s| && tail == s[a..] && b <= |tail| && Strip(s) == tail[..b]
    requires forall i :: 0 <= i < a ==> IsSpace(s[i])
    requires a < |s| ==> !IsSpace(s[a])
    requires b > 0 ==> !IsSpace(tail[b - 1])
    requires forall i :: b <= i < |tail| ==> IsSpace(tail[i])
    ensures IsStripped(s, Strip(s))
  {
    assert tail[..b] == s[a..a + b];
    assert s[a + b..] == tail[b..];
    assert Blank(s[..a]) && Blank(s[a + b..]);
  }

  /** Section `k` shows the lines of its group, stripped, and one line feed; its heading is the title of the
      first line where that is a heading outside fences, and else `Document`. */
  lemma SectionShows(text: string, lines: seq<string>, k: nat, lo: nat, hi: nat) returns (t: string)
    requires lines == SplitLines(text) && k < |SectionSpans(lines)| && SectionSpans(lines)[k] == Span(lo, hi)
    ensures k < |Sections(text)| && lo < hi <= |lines|
    ensures Sections(text)[k].text == t + "\n" && IsStripped(Join(lines[lo..hi]), t)
    ensures Sections(text)[k].heading
         == if |FencePlaces(lines, lo + 1)| % 2 == 0 && IsHeading(lines[lo]) then HeadingTitle(lines[lo]) else "Document"
  {
    SectionsAreTheSectioning(text, []);
    t := Strip(Join(lines[lo..hi]));
    StripStrips(Join(lines[lo..hi]));
    InFenceIff(lines, lo + 1);
  }

  /** A group of lines begins at a heading outside fences. */
  lemma MarkIff(lines: seq<string>, i: nat)
    requires i < |lines|
    ensures SectionMarks(lines)[i] <==> |FencePlaces(lines, i + 1)| % 2 == 0 && IsHeading(lines[i])
  {
    MarkAt(lines, |lines|, i);
    InFenceIff(lines, i + 1);
  }

  // ----- blocks -----

  /** Block `k` shows its lines, stripped, and one line feed. */
  lemma BlockShows(sectionText: string, lines: seq<string>, k: nat, lo: nat, hi: nat) returns (t: string)
    requires lines == SplitLines(sectionText) && k < |BlockSpans(lines, 0)| && BlockSpans(lines, 0)[k] == Span(lo, hi)
    ensures k < |SectionBlocks(sectionText)| && lo < hi <= |lines|
    ensures SectionBlocks(sectionText)[k] == t + "\n" && IsStripped(Join(lines[lo..hi]), t)
  {
    BlocksAreTheBlocking(sectionText, []);
    t := Strip(Join(lines[lo..hi]));
    StripStrips(Join(lines[lo..hi]));
  }

  lemma LineKindIff(lines: seq<string>, i: nat, inside: bool)
    requires i < |lines| && (inside <==> InFence(lines, i + 1))
    ensures Separator(lines, i) <==> !inside && !("```" <= lines[i]) && Blank(lines[i])
    ensures ClosesFence(lines, i) <==> !inside && "```" <= lines[i]
  {
    FenceIff(lines[i]);
  }

  /** Blank lines outside fences separate blocks, and a fence line with an even number of fences so far closes one. */
  lemma KindIff(lines: seq<string>, i: nat)
    requires i < |lines|
    ensures KindsTo(lines, |lines|)[i] == Separates <==>
              |FencePlaces(lines, i + 1)| % 2 == 0 && !("```" <= lines[i]) && Blank(lines[i])
    ensures KindsTo(lines, |lines|)[i] == Closes <==> |FencePlaces(lines, i + 1)| % 2 == 0 && "```" <= lines[i]
  {
    KindAt(lines, |lines|, i);
    InFenceIff(lines, i + 1);
    LineKindIff(lines, i, |FencePlaces(lines, i + 1)| % 2 == 1);
  }

  // ----- chunks and passages -----

  /** The text of some blocks is one after the other. */
  lemma BodyGrows(body: seq<string>, lo: nat, hi: nat)
    requires lo <= hi < |body|
    ensures Body(body, lo, lo) == "" && Body(body, lo, hi + 1) == Body(body, lo, hi) + body[hi]
  {
  }

  lemma SplitIs(sectionText: string, maxChars: int, overlap: int, blocks: seq<string>, heading: string, body: seq<string>)
    requires blocks == SectionBlocks(sectionText) && blocks != [] && body != []
    requires heading == (if IsHeading(blocks[0]) then blocks[0] else "")
    requires body == (if IsHeading(blocks[0]) then blocks[1..] else blocks)
    ensures SplitSection(sectionText, maxChars, overlap) == Chunks(heading, body, maxChars, overlap, "", 0)
  {
    IsHeadingShows(blocks[0]);
  }

  lemma FirstOfChunks(heading: string, body: seq<string>, maxChars: int, overlap: int, chunks: seq<string>, hi: nat)
    requires body != [] && chunks == Chunks(heading, body, maxChars, overlap, "", 0)
    requires hi == PieceEnd(heading, body, maxChars, "", 0, 1)
    ensures chunks != [] && chunks[0] == heading + "" + Body(body, 0, hi)
  {
  }

  /** The first chunk is the heading and whole blocks from the first on. */
  lemma FirstChunkShows(sectionText: string, maxChars: int, overlap: int, blocks: seq<string>, heading: string,
                        body: seq<string>, chunks: seq<string>)
    returns (hi: nat)
    requires blocks == SectionBlocks(sectionText) && blocks != [] && body != []
    requires heading == (if IsHeading(blocks[0]) then blocks[0] else "")
    requires body == (if IsHeading(blocks[0]) then blocks[1..] else blocks)
    requires chunks == SplitSection(sectionText, maxChars, overlap)
    ensures chunks != [] && 0 < hi <= |body| && chunks[0] == heading + Body(body, 0, hi)
  {
    SplitIs(sectionText, maxChars, overlap, blocks, heading, body);
    hi := PieceEnd(heading, body, maxChars, "", 0, 1);
    FirstOfChunks(heading, body, maxChars, overlap, chunks, hi);
    assert heading + "" == heading;
  }

  /** A section without blocks has no chunk, and one with nothing but a heading is a chunk itself. */
  lemma BareSectionChunks(sectionText: string, maxChars: int, overlap: int, blocks: seq<string>)
    requires blocks == SectionBlocks(sectionText)
    ensures blocks == [] ==> SplitSection(sectionText, maxChars, overlap) == []
    ensures |blocks| == 1 && IsHeading(blocks[0]) ==> SplitSection(sectionText, maxChars, overlap) == [sectionText]
  {
    if blocks != [] {
      IsHeadingShows(blocks[0]);
    }
  }

  /** The lines among the first `n` that show something. */
  ghost function VisiblePlaces(lines: seq<string>, n: nat): set<nat>
    requires n <= |lines|
  {
    set i: nat | i < n && !Blank(lines[i])
  }

  lemma {:induction false} VisibleCount(lines: seq<string>, all: seq<string>, from: nat)
    requires from <= |all| && lines == all[from..]
    ensures NonblankCount(lines) == |VisiblePlaces(all, |all|) - VisiblePlaces(all, from)|
    decreases |lines|
  {
    var rest := VisiblePlaces(all, |all|) - VisiblePlaces(all, from);
    if lines == [] {
      assert rest == {};
    } else {
      VisibleCount(lines[1..], all, from + 1);
      var after := VisiblePlaces(all, |all|) - VisiblePlaces(all, from + 1);
      assert rest == if Blank(lines[0]) then after else after + {from};
    }
  }

  /** Only a chunk under a heading with at most one visible line is left out of the passages. */
  lemma DroppedIff(heading: string, part: string, lines: seq<string>)
    requires lines == SplitLines(part)
    ensures IsDropped(heading, part) <==> heading != "" && |VisiblePlaces(lines, |lines|)| <= 1
  {
    VisibleCount(lines, lines, 0);
    assert VisiblePlaces(lines, |lines|) - VisiblePlaces(lines, 0) == VisiblePlaces(lines, |lines|);
  }
}
