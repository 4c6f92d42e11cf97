/** Fenced code through the ingest pipeline: from the lines of a document to its indexed passages. */
module Fences {
  import opened Basics
  import opened Text
  import opened Spans
  import opened Markdown
  import opened Blocks
  import opened Chunking
  import opened Pairs

  lemma StripKeepsFence(s: string)
    ensures IsFence(RStrip(s)) == IsFence(s)
    ensures IsFence(s) ==> LStrip(s) == s && !Blank(s)
  {
    CharFacts();
    RStripFacts(s);
    ContentEndFacts(s, |s|);
    if IsFence(s) {
      SpacesEndIs(s, 0, 0);
      assert !IsSpace(s[2]);
    }
  }

  /** The first line of a section that survives `strip`: the first one not blank, or the last line. */
  function FirstRead(lines: seq<string>, lo: nat, hi: nat): (from: nat)
    requires lo < hi <= |lines|
    ensures lo <= from < hi
    decreases hi - lo
  {
    if lo + 1 < hi && Blank(lines[lo]) then FirstRead(lines, lo + 1, hi) else lo
  }

  /** Stripping does not turn the first line that is kept into a fence. */
  predicate KeepsFence(line: string) {
    IsFence(LStrip(line)) == IsFence(line)
  }

  predicate AllBlank(lines: seq<string>, lo: nat, hi: nat)
    requires hi <= |lines|
  {
    hi <= lo || (AllBlank(lines, lo, hi - 1) && Blank(lines[hi - 1]))
  }

  lemma {:induction false} AllBlankAt(lines: seq<string>, lo: nat, hi: nat, i: nat)
    requires hi <= |lines| && AllBlank(lines, lo, hi) && lo <= i < hi
    ensures Blank(lines[i])
  {
    if i < hi - 1 {
      AllBlankAt(lines, lo, hi - 1, i);
    }
  }

  lemma {:induction false} AllBlankIf(lines: seq<string>, lo: nat, hi: nat)
    requires hi <= |lines| && forall i :: lo <= i < hi ==> Blank(lines[i])
    ensures AllBlank(lines, lo, hi)
  {
    if lo < hi {
      AllBlankIf(lines, lo, hi - 1);
    }
  }

  /** Among `n` lines read from `lines`, only the outer ends are stripped. */
  ghost predicate SameInside(lines: seq<string>, from: nat, read: seq<string>)
    requires from + |read| <= |lines|
  {
    forall k :: 0 < k < |read| - 1 ==> read[k] == lines[from + k]
  }

  predicate EndsStripped(first: string, last: string, read: seq<string>)
    requires read != []
  {
    if |read| == 1 then read[0] == RStrip(LStrip(first))
    else read[0] == LStrip(first) && read[|read| - 1] == RStrip(last)
  }

  /** The chunker reads the lines `lo` to `hi` as `read`, starting with line `from`. */
  ghost predicate ReadsAs(lines: seq<string>, lo: nat, hi: nat, from: nat, read: seq<string>) {
    && lo <= from && read != [] && from + |read| <= hi <= |lines|
    && AllBlank(lines, lo, from) && AllBlank(lines, from + |read|, hi)
    && SameInside(lines, from, read)
    && EndsStripped(lines[from], lines[from + |read| - 1], read)
  }

  lemma {:induction false} FirstReadIsFirstKept(lines: seq<string>, lo: nat, hi: nat, i: nat)
    requires lo <= i < hi <= |lines|
    ensures FirstRead(lines, i, hi) == lo + FirstKept(lines[lo..hi], i - lo)
    decreases hi - i
  {
    assert lines[lo..hi][i - lo] == lines[i];
    if i + 1 < hi && Blank(lines[i]) {
      FirstReadIsFirstKept(lines, lo, hi, i + 1);
    }
  }

  lemma BlankFront(raw: seq<string>)
    requires raw != []
    ensures AllBlank(raw, 0, FirstKept(raw, 0))
  {
    FirstKeptFacts(raw, 0);
    AllBlankIf(raw, 0, FirstKept(raw, 0));
  }

  lemma TrimReads(raw: seq<string>, d: nat, front: seq<string>, read: seq<string>)
    requires raw != [] && d == FirstKept(raw, 0) && front == TrimFront(raw) && read == TrimBack(front)
    ensures ReadsAs(raw, 0, |raw|, d, read)
  {
    BlankFront(raw);
    TrimmedBack(raw, d, front, read);
  }

  lemma TrimmedBack(raw: seq<string>, d: nat, front: seq<string>, read: seq<string>)
    requires d < |raw| && front == [LStrip(raw[d])] + raw[d + 1..] && read == TrimBack(front)
    ensures && read != [] && d + |read| <= |raw| && AllBlank(raw, d + |read|, |raw|)
            && SameInside(raw, d, read) && EndsStripped(raw[d], raw[d + |read| - 1], read)
  {
    var n := LastKept(front, |front| - 1);
    LastKeptFacts(front, |front| - 1);
    forall i | d + n + 1 <= i < |raw| ensures Blank(raw[i]) {
      assert front[i - d] == raw[i];
    }
    AllBlankIf(raw, d + n + 1, |raw|);
  }

  lemma {:induction false} AllBlankShift(lines: seq<string>, raw: seq<string>, lo: nat, i: nat, j: nat)
    requires j <= |raw| && lo + |raw| <= |lines| && raw == lines[lo..lo + |raw|] && AllBlank(raw, i, j)
    ensures AllBlank(lines, lo + i, lo + j)
  {
    if i < j {
      AllBlankShift(lines, raw, lo, i, j - 1);
      assert raw[j - 1] == lines[lo + j - 1];
    }
  }

  lemma ReadsShift(lines: seq<string>, raw: seq<string>, lo: nat, hi: nat, d: nat, read: seq<string>)
    requires lo < hi <= |lines| && raw == lines[lo..hi] && ReadsAs(raw, 0, |raw|, d, read)
    ensures ReadsAs(lines, lo, hi, lo + d, read)
  {
    AllBlankShift(lines, raw, lo, 0, d);
    AllBlankShift(lines, raw, lo, d + |read|, |raw|);
    assert forall k :: 0 <= k < |raw| ==> raw[k] == lines[lo + k];
  }

  lemma RawReads(raw: seq<string>, read: seq<string>)
    requires raw != [] && AllBreakFree(raw) && read == SplitLines(SectionText(raw))
    ensures ReadsAs(raw, 0, |raw|, FirstKept(raw, 0), read) && SectionText(raw) == Join(read) + "\n"
  {
    LStripJoin(raw);
    RStripJoin(TrimFront(raw));
    SplitStripped(raw);
    TrimReads(raw, FirstKept(raw, 0), TrimFront(raw), Trim(raw));
  }

  /** What a section's text reads as, line by line. */
  lemma SectionReads(lines: seq<string>, lo: nat, hi: nat)
    requires lo < hi <= |lines| && AllBreakFree(lines)
    ensures var read := SplitLines(SectionText(lines[lo..hi]));
            && ReadsAs(lines, lo, hi, FirstRead(lines, lo, hi), read)
            && SectionText(lines[lo..hi]) == Join(read) + "\n"
  {
    var raw, read := lines[lo..hi], SplitLines(SectionText(lines[lo..hi]));
    RawReads(raw, read);
    FirstReadIsFirstKept(lines, lo, hi, lo);
    ReadsShift(lines, raw, lo, hi, FirstKept(raw, 0), read);
  }

  // ----- the fence flags -----

  lemma ReadFence(lines: seq<string>, lo: nat, hi: nat, from: nat, read: seq<string>, k: nat)
    requires ReadsAs(lines, lo, hi, from, read) && k < |read|
    ensures IsFence(read[k]) == IsFence(if k == 0 then LStrip(lines[from]) else lines[from + k])
  {
    StripKeepsFence(LStrip(lines[from]));
    StripKeepsFence(lines[from + k]);
  }

  lemma {:induction false} BlankPrefixKeepsFlag(lines: seq<string>, lo: nat, n: nat)
    requires lo <= n <= |lines| && AllBlank(lines, lo, n)
    ensures InFence(lines, n) == InFence(lines, lo)
  {
    if lo < n {
      BlankPrefixKeepsFlag(lines, lo, n - 1);
      StripKeepsFence(lines[n - 1]);
    }
  }

  lemma {:induction false} FlagAgrees(lines: seq<string>, lo: nat, hi: nat, from: nat, read: seq<string>, k: nat)
    requires ReadsAs(lines, lo, hi, from, read) && !InFence(lines, lo)
    requires KeepsFence(lines[from]) && k <= |read|
    ensures InFence(read, k) == InFence(lines, from + k)
  {
    if k == 0 {
      BlankPrefixKeepsFlag(lines, lo, from);
    } else {
      FlagAgrees(lines, lo, hi, from, read, k - 1);
      ReadFence(lines, lo, hi, from, read, k - 1);
    }
  }

  lemma IndentedFenceDisagrees(lines: seq<string>, lo: nat, hi: nat, from: nat, read: seq<string>)
    requires ReadsAs(lines, lo, hi, from, read) && !InFence(lines, lo) && !KeepsFence(lines[from])
    ensures InFence(read, 1) != InFence(lines, from + 1)
  {
    BlankPrefixKeepsFlag(lines, lo, from);
    ReadFence(lines, lo, hi, from, read, 0);
    assert !InFence(read, 0);
  }

  /** The lines the chunker reads back from a section have the flags of the document's lines. */
  ghost predicate FlagsAgree(lines: seq<string>, from: nat, read: seq<string>) {
    from + |read| <= |lines| && forall k :: 0 <= k <= |read| ==> InFence(read, k) == InFence(lines, from + k)
  }

  /** The chunker's fence flag on a section agrees with the whole-document flag on every line of
      it exactly when stripping the section does not turn an indented first line into a fence. */
  lemma ChunkerFlagAgrees(lines: seq<string>, lo: nat, hi: nat)
    requires lo < hi <= |lines| && AllBreakFree(lines) && !InFence(lines, lo)
    ensures var from := FirstRead(lines, lo, hi);
            FlagsAgree(lines, from, SplitLines(SectionText(lines[lo..hi]))) <==> KeepsFence(lines[from])
  {
    SectionReads(lines, lo, hi);
    FlagsAgreeExactly(lines, lo, hi, FirstRead(lines, lo, hi), SplitLines(SectionText(lines[lo..hi])));
  }

  lemma FlagsAgreeExactly(lines: seq<string>, lo: nat, hi: nat, from: nat, read: seq<string>)
    requires ReadsAs(lines, lo, hi, from, read) && !InFence(lines, lo)
    ensures FlagsAgree(lines, from, read) <==> KeepsFence(lines[from])
  {
    if KeepsFence(lines[from]) {
      forall k | 0 <= k <= |read| ensures InFence(read, k) == InFence(lines, from + k) {
        FlagAgrees(lines, lo, hi, from, read, k);
      }
    } else {
      IndentedFenceDisagrees(lines, lo, hi, from, read);
    }
  }

  /** A section that a heading opens always keeps its first line, so its flags always agree. */
  lemma HeadedSectionAgrees(lines: seq<string>, lo: nat, hi: nat)
    requires lo < hi <= |lines| && AllBreakFree(lines) && StartsSection(lines, lo)
    ensures FirstRead(lines, lo, hi) == lo && KeepsFence(lines[lo])
    ensures FlagsAgree(lines, lo, SplitLines(SectionText(lines[lo..hi])))
  {
    HeadingFacts(lines[lo]);
    ChunkerFlagAgrees(lines, lo, hi);
  }

  // ----- closed fenced blocks -----

  /** The text of lines `a` to `b` without trailing space. */
  function RunText(lines: seq<string>, a: nat, b: nat): string
    requires a <= b < |lines|
  {
    RStrip(Join(lines[a..b + 1]))
  }

  lemma SectionDoesNotCutRun(lines: seq<string>, a: nat, b: nat, hi: nat)
    requires FencedRun(lines, a, b) && a < hi <= |lines| && (hi < |lines| ==> StartsSection(lines, hi))
    ensures b < hi
  {
    if hi <= b {
      InsideRun(lines, a, b, hi);
      HeadingFacts(lines[hi]);
    }
  }

  lemma VisibleIsRead(lines: seq<string>, lo: nat, hi: nat, from: nat, read: seq<string>, i: nat)
    requires ReadsAs(lines, lo, hi, from, read) && lo <= i < hi && !Blank(lines[i])
    ensures from <= i < from + |read|
  {
    if i < from {
      AllBlankAt(lines, lo, from, i);
    }
    if from + |read| <= i {
      AllBlankAt(lines, from + |read|, hi, i);
    }
  }

  lemma FenceIsRead(lines: seq<string>, lo: nat, hi: nat, from: nat, read: seq<string>, i: nat)
    requires ReadsAs(lines, lo, hi, from, read) && lo <= i < hi && IsFence(lines[i])
    ensures from <= i < from + |read| && IsFence(read[i - from])
  {
    StripKeepsFence(lines[i]);
    VisibleIsRead(lines, lo, hi, from, read, i);
    ReadFence(lines, lo, hi, from, read, i - from);
  }

  /** The run as the chunker reads it. */
  lemma RunRead(lines: seq<string>, lo: nat, hi: nat, from: nat, read: seq<string>, a: nat, b: nat)
    requires ReadsAs(lines, lo, hi, from, read) && !InFence(lines, lo) && KeepsFence(lines[from])
    requires FencedRun(lines, a, b) && lo <= a && b < hi
    ensures from <= a && b < from + |read| && FencedRun(read, a - from, b - from)
  {
    FenceIsRead(lines, lo, hi, from, read, a);
    FenceIsRead(lines, lo, hi, from, read, b);
    FlagAgrees(lines, lo, hi, from, read, a - from);
    NoFenceRead(lines, lo, hi, from, read, a, b);
  }

  lemma {:induction false} NoFenceRead(lines: seq<string>, lo: nat, hi: nat, from: nat, read: seq<string>, a: nat, b: nat)
    requires ReadsAs(lines, lo, hi, from, read)
    requires from <= a < b < from + |read| && NoFenceBetween(lines, a, b)
    ensures NoFenceBetween(read, a - from, b - from)
  {
    if a + 1 < b {
      NoFenceRead(lines, lo, hi, from, read, a, b - 1);
      ReadFence(lines, lo, hi, from, read, b - 1 - from);
    }
  }

  lemma RStripJoinLast(xs: seq<string>, p: string, q: string)
    requires xs != [] && (p == q || p == RStrip(q))
    ensures RStrip(Join(xs + [p])) == RStrip(Join(xs + [q]))
  {
    JoinConcat(xs, [p]);
    JoinConcat(xs, [q]);
    RStripTail(Join(xs) + "\n", q);
  }

  lemma ReadInterior(lines: seq<string>, from: nat, read: seq<string>, a: nat, b: nat)
    requires from <= a <= b < from + |read| <= |lines| && SameInside(lines, from, read)
    requires a == from ==> read[0] == lines[from]
    ensures read[a - from..b - from] == lines[a..b]
  {
    var inside, wanted := read[a - from..b - from], lines[a..b];
    forall k | 0 <= k < b - a ensures inside[k] == wanted[k] {
      assert inside[k] == read[a - from + k];
    }
  }

  lemma SameRunText(read: seq<string>, lines: seq<string>, a': nat, b': nat, a: nat, b: nat)
    requires a' < b' < |read| && a < b < |lines| && read[a'..b'] == lines[a..b]
    requires read[b'] == lines[b] || read[b'] == RStrip(lines[b])
    ensures RunText(read, a', b') == RunText(lines, a, b)
  {
    SliceSnoc(read, a', b');
    SliceSnoc(lines, a, b);
    RStripJoinLast(lines[a..b], read[b'], lines[b]);
  }

  lemma ReadLater(lines: seq<string>, lo: nat, hi: nat, from: nat, read: seq<string>, k: nat)
    requires ReadsAs(lines, lo, hi, from, read) && 0 < k < |read|
    ensures read[k] == lines[from + k] || read[k] == RStrip(lines[from + k])
  {
  }

  lemma ReadRunText(lines: seq<string>, lo: nat, hi: nat, from: nat, read: seq<string>, a: nat, b: nat)
    requires ReadsAs(lines, lo, hi, from, read)
    requires from <= a < b < from + |read| && IsFence(lines[a])
    ensures RunText(read, a - from, b - from) == RunText(lines, a, b)
  {
    assert read[a - from..b - from] == lines[a..b] by {
      StripKeepsFence(lines[a]);
      ReadInterior(lines, from, read, a, b);
    }
    assert read[b - from] == lines[b] || read[b - from] == RStrip(lines[b]) by {
      ReadLater(lines, lo, hi, from, read, b - from);
    }
    SameRunText(read, lines, a - from, b - from, a, b);
  }

  lemma RStripAfterLine(line: string, tail: string)
    requires !Blank(tail)
    ensures RStrip(line + ("\n" + tail)) == line + ("\n" + RStrip(tail))
  {
    Assoc(line, "\n", tail);
    RStripConcat(line + "\n", tail);
    Assoc(line, "\n", RStrip(tail));
  }

  lemma JoinFromLine(lines: seq<string>, a: nat, b: nat)
    requires a < b < |lines| && !Blank(lines[b])
    ensures Join(lines[a..b + 1]) == lines[a] + ("\n" + Join(lines[a + 1..b + 1]))
    ensures !Blank(Join(lines[a + 1..b + 1]))
  {
    var rest := lines[a + 1..b + 1];
    assert rest[b - a - 1] == lines[b];
    JoinBlank(rest);
    assert lines[a..b + 1] == [lines[a]] + rest;
    JoinCons(lines[a], rest);
  }

  /** A run's text is its first line, a line feed, and text that ends visibly. */
  lemma RunTextIs(lines: seq<string>, a: nat, b: nat) returns (tail: string)
    requires FencedRun(lines, a, b)
    ensures Join(lines[a..b + 1]) == lines[a] + ("\n" + tail) && !Blank(tail)
    ensures RunText(lines, a, b) == lines[a] + ("\n" + RStrip(tail))
  {
    StripKeepsFence(lines[b]);
    JoinFromLine(lines, a, b);
    tail := Join(lines[a + 1..b + 1]);
    RStripAfterLine(lines[a], tail);
  }

  lemma RunTextShape(lines: seq<string>, a: nat, b: nat)
    requires FencedRun(lines, a, b)
    ensures var f := RunText(lines, a, b);
            |lines[a]| + 1 < |f| && !IsSpace(f[0]) && f[|lines[a]|] == '\n' && !IsSpace(f[|f| - 1])
    ensures var run := Join(lines[a..b + 1]);
            run != "" && !IsSpace(run[0]) && !Blank(run)
  {
    CharFacts();
    var tail := RunTextIs(lines, a, b);
    var shown := RStrip(tail);
    RStripFacts(tail);
    var f := lines[a] + ("\n" + shown);
    assert f[|f| - 1] == shown[|shown| - 1];
    var run := lines[a] + ("\n" + tail);
    assert !IsSpace(run[0]);
  }

  lemma StripEndsWith(before: string, run: string) returns (x: string)
    requires !Blank(run) && !IsSpace(run[0])
    ensures Strip(before + run) == x + RStrip(run)
  {
    LStripConcat(before, run);
    SpacesEndIs(run, 0, 0);
    x := if Blank(before) then "" else LStrip(before);
    RStripConcat(x, run);
    assert "" + run == run;
  }

  lemma TextEndsWithRun(read: seq<string>, lo: nat, a: nat, b: nat) returns (x: string)
    requires FencedRun(read, a, b) && lo <= a
    ensures SectionText(read[lo..b + 1]) == x + RunText(read, a, b) + "\n"
  {
    var run := Join(read[a..b + 1]);
    RunTextShape(read, a, b);
    CharFacts();
    if lo == a {
      x := StripEndsWith("", run);
      assert "" + run == run;
    } else {
      SliceSplit(read, lo, a, b + 1);
      JoinConcat(read[lo..a], read[a..b + 1]);
      x := StripEndsWith(Join(read[lo..a]) + "\n", run);
    }
  }

  /** The block that holds a closed fenced run ends with the text of the run. */
  lemma BlockHoldsRun(read: seq<string>, a: nat, b: nat) returns (k: nat, x: string)
    requires FencedRun(read, a, b)
    ensures k < |BlocksFrom(read, 0)| && BlocksFrom(read, 0)[k] == x + RunText(read, a, b) + "\n"
  {
    k := RunInOneBlock(read, a, b, 0);
    BlocksRenderSpans(read, 0);
    x := TextEndsWithRun(read, BlockSpans(read, 0)[k].lo, a, b);
  }

  // ----- from blocks to chunks -----

  lemma ContainsMid(x: string, t: string, y: string)
    ensures Contains(x + t + y, t)
  {
    assert OccursAt(x + t + y, t, |x|);
    OccursUpTo(x + t + y, t, 0, |x|);
  }

  lemma ContainsTrans(s: string, t: string, u: string)
    requires Contains(s, t) && Contains(t, u)
    ensures Contains(s, u)
  {
    var i := Occurrence(s, t, 0);
    var j := Occurrence(t, u, 0);
    SliceOfSlice(s, i, |t|, j, |u|);
    assert OccursAt(s, u, i + j);
    OccursUpTo(s, u, 0, i + j);
  }

  lemma {:induction false} BodyContains(body: seq<string>, lo: nat, hi: nat, k: nat)
    requires lo <= k < hi <= |body|
    ensures Contains(Body(body, lo, hi), body[k])
  {
    var before := Body(body, lo, hi - 1);
    if k == hi - 1 {
      ContainsMid(before, body[k], "");
      assert before + body[k] + "" == before + body[k];
    } else {
      BodyContains(body, lo, hi - 1, k);
      ContainsMid("", before, body[hi - 1]);
      assert "" + before + body[hi - 1] == before + body[hi - 1];
      ContainsTrans(Body(body, lo, hi), before, body[k]);
    }
  }

  lemma {:induction false} ChunkHoldsBlock(heading: string, body: seq<string>, maxChars: int, overlap: int, glue: string,
                                           lo: nat, k: nat) returns (chunk: string)
    requires lo <= k < |body|
    ensures chunk in Chunks(heading, body, maxChars, overlap, glue, lo) && Contains(chunk, body[k])
    decreases |body| - lo
  {
    var p := FirstPiece(heading, body, maxChars, glue, lo);
    var text := PieceText(heading, body, p);
    if k < p.hi {
      chunk := text;
      BodyContains(body, lo, p.hi, k);
      ContainsMid(heading + glue, Body(body, lo, p.hi), "");
      assert heading + glue + Body(body, lo, p.hi) + "" == text;
      ContainsTrans(text, Body(body, lo, p.hi), body[k]);
    } else {
      chunk := ChunkHoldsBlock(heading, body, maxChars, overlap, Glue(heading, text, overlap), p.hi, k);
    }
  }

  lemma SomeChunkHoldsBlock(blocks: seq<string>, maxChars: int, overlap: int, k: nat) returns (chunk: string)
    requires k < |blocks| && BodyBlocks(blocks) != []
    ensures chunk in Chunks(HeadingBlock(blocks), BodyBlocks(blocks), maxChars, overlap, "", 0) && Contains(chunk, blocks[k])
  {
    var heading, body := HeadingBlock(blocks), BodyBlocks(blocks);
    if heading != "" && k == 0 {
      var p := FirstPiece(heading, body, maxChars, "", 0);
      chunk := PieceText(heading, body, p);
      ContainsMid("", heading, Body(body, 0, p.hi));
      assert "" + heading + Body(body, 0, p.hi) == chunk;
    } else {
      var j := if heading != "" then k - 1 else k;
      assert body[j] == blocks[k];
      chunk := ChunkHoldsBlock(heading, body, maxChars, overlap, "", 0, j);
    }
  }

  lemma JoinSplit3(read: seq<string>, a: nat, b: nat) returns (x: string, y: string)
    requires a < b < |read|
    ensures Join(read) == x + Join(read[a..b + 1]) + y
  {
    var n := |read|;
    assert read[..n] == read && read[0..n] == read;
    x := if a == 0 then "" else Join(read[..a]) + "\n";
    y := if b == n - 1 then "" else "\n" + Join(read[b + 1..]);
    var run := read[a..b + 1];
    SliceSplit(read, a, b + 1, n);
    var tail := Join(read[a..n]);
    assert tail == Join(run) + y by {
      if b < n - 1 {
        JoinConcat(run, read[b + 1..n]);
        assert read[b + 1..n] == read[b + 1..];
        Assoc(Join(run), "\n", Join(read[b + 1..]));
      } else {
        assert run + read[n..n] == run;
        assert Join(run) + "" == Join(run);
      }
    }
    if a > 0 {
      SliceSplit(read, 0, a, n);
      assert read[0..a] == read[..a];
      JoinConcat(read[..a], read[a..n]);
    } else {
      assert "" + tail == tail;
    }
    Assoc(x, Join(run), y);
  }

  lemma ContainsWithin(x: string, run: string, f: string, y: string)
    requires f <= run
    ensures Contains(x + run + y + "\n", f)
  {
    var s := x + run + y + "\n";
    assert s[|x|..|x| + |f|] == run[..|f|];
    assert OccursAt(s, f, |x|);
    OccursUpTo(s, f, 0, |x|);
  }

  /** The section's own text holds the run. */
  lemma JoinHoldsRun(read: seq<string>, a: nat, b: nat)
    requires a < b < |read|
    ensures Contains(Join(read) + "\n", RunText(read, a, b))
  {
    var x, y := JoinSplit3(read, a, b);
    RStripFacts(Join(read[a..b + 1]));
    ContainsWithin(x, Join(read[a..b + 1]), RunText(read, a, b), y);
  }

  /** Text with two visible characters around a line feed is never dropped. */
  lemma ShownTwiceIsNotDropped(heading: string, part: string, f: string, n: nat)
    requires Contains(part, f) && 0 < n < |f| - 1
    requires !IsSpace(f[0]) && f[n] == '\n' && !IsSpace(f[|f| - 1])
    ensures !IsDropped(heading, part)
  {
    var i := Occurrence(part, f, 0);
    var g := part[i..i + |f|];
    assert g[0] == part[i] && g[n] == part[i + n] && g[|f| - 1] == part[i + (|f| - 1)];
    NonblankTwice(part, i, i + n, i + (|f| - 1));
  }

  /** A passage that holds a closed fenced run shows at least the two fence lines. */
  lemma RunIsNotDropped(lines: seq<string>, a: nat, b: nat, heading: string, part: string)
    requires FencedRun(lines, a, b) && Contains(part, RunText(lines, a, b))
    ensures !IsDropped(heading, part)
  {
    RunTextShape(lines, a, b);
    ShownTwiceIsNotDropped(heading, part, RunText(lines, a, b), |lines[a]|);
  }

  /** Some part of the section's split holds the run. */
  lemma SomePartHoldsRun(sectionText: string, a: nat, b: nat, chunkSize: int, overlap: int) returns (part: string)
    requires FencedRun(SplitLines(sectionText), a, b) && sectionText == Join(SplitLines(sectionText)) + "\n"
    ensures part in SplitSection(sectionText, chunkSize, overlap)
    ensures Contains(part, RunText(SplitLines(sectionText), a, b))
  {
    var read := SplitLines(sectionText);
    var k, x := BlockHoldsRun(read, a, b);
    var blocks := SectionBlocks(sectionText);
    if BodyBlocks(blocks) == [] {
      part := sectionText;
      JoinHoldsRun(read, a, b);
    } else {
      part := SomeChunkHoldsBlock(blocks, chunkSize, overlap, k);
      ContainsMid(x, RunText(read, a, b), "\n");
      ContainsTrans(part, blocks[k], RunText(read, a, b));
    }
  }

  lemma StartsOutsideFence(lines: seq<string>, i: nat)
    requires i < |lines| && StartsSection(lines, i)
    ensures !InFence(lines, i)
  {
    HeadingFacts(lines[i]);
  }

  lemma SectionSpanFacts(lines: seq<string>, k: nat)
    requires k < |SectionSpans(lines)|
    ensures var span := SectionSpans(lines)[k];
            && !InFence(lines, span.lo)
            && (k > 0 ==> StartsSection(lines, span.lo))
            && (span.hi < |lines| ==> StartsSection(lines, span.hi))
  {
    var marks, spans := SectionMarks(lines), SectionSpans(lines);
    CutSpansTile(marks, 0);
    var span := spans[k];
    MarkAt(lines, |lines|, span.lo);
    if k > 0 {
      StartsOutsideFence(lines, span.lo);
    }
    if span.hi < |lines| {
      assert k < |spans| - 1;
      assert span.hi == spans[k + 1].lo && marks[spans[k + 1].lo];
      MarkAt(lines, |lines|, span.hi);
    }
  }

  /** Every closed fenced block of a document ends up whole in a passage of the index, under the
      heading of its section, unless stripping that section turns an indented first line into a fence. */
  lemma FencedCodeIsIndexed(text: string, chunkSize: int, overlap: int, a: nat, b: nat, k: nat)
    requires FencedRun(SplitLines(text), a, b) && k < |SectionSpans(SplitLines(text))|
    requires var lines, span := SplitLines(text), SectionSpans(SplitLines(text))[k];
             span.lo <= a < span.hi && KeepsFence(lines[FirstRead(lines, span.lo, span.hi)])
    ensures exists pair :: pair in SectionPairs(text, chunkSize, overlap)
                           && pair.heading == SectionTitle(SplitLines(text), SectionSpans(SplitLines(text))[k].lo)
                           && Contains(pair.text, RunText(SplitLines(text), a, b))
  {
    var lines := SplitLines(text);
    var span := SectionSpans(lines)[k];
    SplitBreakFree(text);
    SectionSpanFacts(lines, k);
    SectionDoesNotCutRun(lines, a, b, span.hi);
    var part := SectionHoldsRun(lines, span.lo, span.hi, a, b, chunkSize, overlap);
    var pair := Pair(SectionTitle(lines, span.lo), part);
    RunIsNotDropped(lines, a, b, pair.heading, part);
    SectionsAreTheSectioning(text, SectionSpans(lines));
    assert IsPartOf(Sections(text)[k], chunkSize, overlap, pair);
    PairsAreKeptParts(text, chunkSize, overlap, pair);
  }

  lemma SectionHoldsRun(lines: seq<string>, lo: nat, hi: nat, a: nat, b: nat, chunkSize: int, overlap: int) returns (part: string)
    requires FencedRun(lines, a, b) && AllBreakFree(lines) && lo <= a && b < hi <= |lines|
    requires !InFence(lines, lo) && KeepsFence(lines[FirstRead(lines, lo, hi)])
    ensures part in SplitSection(SectionText(lines[lo..hi]), chunkSize, overlap) && Contains(part, RunText(lines, a, b))
  {
    var sectionText := SectionText(lines[lo..hi]);
    SectionReads(lines, lo, hi);
    var a', b' := RunIsRead(lines, lo, hi, FirstRead(lines, lo, hi), SplitLines(sectionText), a, b);
    part := SomePartHoldsRun(sectionText, a', b', chunkSize, overlap);
  }

  lemma RunIsRead(lines: seq<string>, lo: nat, hi: nat, from: nat, read: seq<string>, a: nat, b: nat) returns (a': nat, b': nat)
    requires ReadsAs(lines, lo, hi, from, read) && !InFence(lines, lo) && KeepsFence(lines[from])
    requires FencedRun(lines, a, b) && lo <= a && b < hi
    ensures FencedRun(read, a', b') && RunText(read, a', b') == RunText(lines, a, b)
  {
    RunRead(lines, lo, hi, from, read, a, b);
    ReadRunText(lines, lo, hi, from, read, a, b);
    a', b' := a - from, b - from;
  }
}
