/** When a fenced block lies whole in one block of its section, and in one chunk at every chunk
    size: exactly when stripping the section keeps the meaning of its first line. */
module FencedChunks {
  import opened Text
  import opened Spans
  import opened Markdown
  import opened Blocks
  import opened Chunking
  import opened Fences

  /** Some block holds the lines `a` to `b`. */
  ghost predicate HoldsLines(spans: seq<Span>, a: int, b: int) {
    exists k :: 0 <= k < |spans| && spans[k].lo <= a && b < spans[k].hi
  }

  lemma {:induction false} FlagsInverted(lines: seq<string>, lo: nat, hi: nat, from: nat, read: seq<string>, k: nat)
    requires ReadsAs(lines, lo, hi, from, read) && !InFence(lines, lo) && !KeepsFence(lines[from])
    requires 0 < k <= |read|
    ensures InFence(read, k) != InFence(lines, from + k)
  {
    if k == 1 {
      IndentedFenceDisagrees(lines, lo, hi, from, read);
    } else {
      FlagsInverted(lines, lo, hi, from, read, k - 1);
      ReadFence(lines, lo, hi, from, read, k - 1);
    }
  }

  /** No block goes on past a line that closes a fence. */
  lemma ClosedIsTorn(read: seq<string>, a: nat, b: nat)
    requires a < b < |read| && ClosesFence(read, a)
    ensures !HoldsLines(BlockSpans(read, 0), a, b)
  {
    BlocksAreABlocking(read, 0);
    KindAt(read, |read|, a);
  }

  lemma FenceIsNotFirst(lines: seq<string>, from: nat, a: nat)
    requires from < |lines| && a < |lines| && !KeepsFence(lines[from]) && IsFence(lines[a])
    ensures a != from
  {
    StripKeepsFence(lines[a]);
  }

  lemma TornAt(lines: seq<string>, lo: nat, hi: nat, from: nat, read: seq<string>, a: nat, b: nat)
    requires ReadsAs(lines, lo, hi, from, read) && !InFence(lines, lo) && !KeepsFence(lines[from])
    requires FencedRun(lines, a, b) && lo <= a && b < hi
    ensures from < a && b < from + |read| && ClosesFence(read, a - from)
  {
    FenceIsRead(lines, lo, hi, from, read, a);
    FenceIsRead(lines, lo, hi, from, read, b);
    FenceIsNotFirst(lines, from, a);
    InsideRun(lines, a, b, a + 1);
    FlagsInverted(lines, lo, hi, from, read, a - from + 1);
  }

  lemma RunIsTorn(lines: seq<string>, lo: nat, hi: nat, from: nat, read: seq<string>, a: nat, b: nat)
    requires ReadsAs(lines, lo, hi, from, read) && !InFence(lines, lo) && !KeepsFence(lines[from])
    requires FencedRun(lines, a, b) && lo <= a && b < hi
    ensures !HoldsLines(BlockSpans(read, 0), a - from, b - from)
  {
    TornAt(lines, lo, hi, from, read, a, b);
    ClosedIsTorn(read, a - from, b - from);
  }

  lemma RunIsHeld(lines: seq<string>, lo: nat, hi: nat, from: nat, read: seq<string>, a: nat, b: nat)
    requires ReadsAs(lines, lo, hi, from, read) && !InFence(lines, lo) && KeepsFence(lines[from])
    requires FencedRun(lines, a, b) && lo <= a && b < hi
    ensures HoldsLines(BlockSpans(read, 0), a - from, b - from)
  {
    RunRead(lines, lo, hi, from, read, a, b);
    var k := RunInOneBlock(read, a - from, b - from, 0);
    assert BlockSpans(read, 0)[k].lo <= a - from;
  }

  lemma RunLiesInBlockIff(lines: seq<string>, lo: nat, hi: nat, from: nat, read: seq<string>, a: nat, b: nat)
    requires ReadsAs(lines, lo, hi, from, read) && !InFence(lines, lo)
    requires FencedRun(lines, a, b) && lo <= a && b < hi
    ensures HoldsLines(BlockSpans(read, 0), a - from, b - from) <==> KeepsFence(lines[from])
  {
    if KeepsFence(lines[from]) {
      RunIsHeld(lines, lo, hi, from, read, a, b);
    } else {
      RunIsTorn(lines, lo, hi, from, read, a, b);
    }
  }

  /** `read` are the lines the chunker reads of section `k`, the first of them line `from` of the
      document; the section holds line `a`. */
  ghost predicate ReadsSection(text: string, k: nat, a: nat, from: nat, read: seq<string>) {
    var lines := SplitLines(text);
    && k < |SectionSpans(lines)| && k < |Sections(text)|
    && SectionSpans(lines)[k].lo <= a < SectionSpans(lines)[k].hi
    && from == FirstRead(lines, SectionSpans(lines)[k].lo, SectionSpans(lines)[k].hi)
    && read == SplitLines(Sections(text)[k].text)
  }

  lemma SectionReadsAs(text: string, lines: seq<string>, k: nat, a: nat, from: nat, read: seq<string>, span: Span)
    requires ReadsSection(text, k, a, from, read) && lines == SplitLines(text) && span == SectionSpans(lines)[k]
    ensures ReadsAs(lines, span.lo, span.hi, from, read)
  {
    SplitBreakFree(text);
    SectionsAreTheSectioning(text, SectionSpans(lines));
    SectionReads(lines, span.lo, span.hi);
  }

  /** A closed fenced block of a document lies whole in one block of its section exactly when
      stripping does not turn the first line of that section into a fence. */
  lemma FencedCodeIsWholeIff(text: string, lines: seq<string>, k: nat, a: nat, b: nat, from: nat, read: seq<string>)
    requires lines == SplitLines(text) && FencedRun(lines, a, b) && ReadsSection(text, k, a, from, read)
    ensures HoldsLines(BlockSpans(read, 0), a - from, b - from) <==> KeepsFence(lines[from])
  {
    var span := SectionSpans(lines)[k];
    SectionReadsAs(text, lines, k, a, from, read, span);
    SectionSpanFacts(lines, k);
    SectionDoesNotCutRun(lines, a, b, span.hi);
    RunLiesInBlockIff(lines, span.lo, span.hi, from, read, a, b);
  }

  // ----- without overlap -----

  predicate InPiece(p: Piece, j: nat) {
    p.lo <= j < p.hi
  }

  /** Piece `i` alone holds body block `j`. */
  ghost predicate IsOnlyHolder(pieces: seq<Piece>, j: nat, i: nat) {
    i < |pieces| && InPiece(pieces[i], j) && forall k :: 0 <= k < |pieces| && k != i ==> !InPiece(pieces[k], j)
  }

  lemma FirstOfPieces(heading: string, body: seq<string>, maxChars: int, overlap: int, glue: string, lo: nat)
    returns (p: Piece, next: string, rest: seq<Piece>)
    requires lo < |body|
    ensures lo == p.lo < p.hi <= |body| && p.glue == glue
    ensures next == Glue(heading, PieceText(heading, body, p), overlap)
    ensures rest == Pieces(heading, body, maxChars, overlap, next, p.hi)
    ensures Pieces(heading, body, maxChars, overlap, glue, lo) == [p] + rest
  {
    p := FirstPiece(heading, body, maxChars, glue, lo);
    next := Glue(heading, PieceText(heading, body, p), overlap);
    rest := Pieces(heading, body, maxChars, overlap, next, p.hi);
  }

  lemma {:induction false} PieceFacts(heading: string, body: seq<string>, maxChars: int, overlap: int, glue: string,
                                      lo: nat, i: nat)
    requires lo <= |body| && i < |Pieces(heading, body, maxChars, overlap, glue, lo)|
    ensures var p := Pieces(heading, body, maxChars, overlap, glue, lo)[i];
            lo <= p.lo < p.hi <= |body| && (glue == "" && overlap <= 0 ==> p.glue == "")
    decreases i
  {
    var p, next, rest := FirstOfPieces(heading, body, maxChars, overlap, glue, lo);
    if i > 0 {
      GlueBound(heading, PieceText(heading, body, p), overlap);
      PieceFacts(heading, body, maxChars, overlap, next, p.hi, i - 1);
    }
  }

  lemma {:induction false} OnlyHolder(heading: string, body: seq<string>, maxChars: int, overlap: int, glue: string,
                                      lo: nat, j: nat) returns (i: nat)
    requires lo <= j < |body|
    ensures IsOnlyHolder(Pieces(heading, body, maxChars, overlap, glue, lo), j, i)
    decreases |body| - lo
  {
    var pieces := Pieces(heading, body, maxChars, overlap, glue, lo);
    var p, next, rest := FirstOfPieces(heading, body, maxChars, overlap, glue, lo);
    if j < p.hi {
      i := 0;
      forall k | 0 <= k < |rest| ensures !InPiece(rest[k], j) {
        PieceFacts(heading, body, maxChars, overlap, next, p.hi, k);
      }
    } else {
      i := OnlyHolder(heading, body, maxChars, overlap, next, p.hi, j);
      i := i + 1;
    }
    ShiftHolder(pieces, p, rest, j, i);
  }

  lemma ShiftHolder(pieces: seq<Piece>, p: Piece, rest: seq<Piece>, j: nat, i: nat)
    requires pieces == [p] + rest
    requires if i == 0 then InPiece(p, j) && (forall k :: 0 <= k < |rest| ==> !InPiece(rest[k], j))
             else !InPiece(p, j) && IsOnlyHolder(rest, j, i - 1)
    ensures IsOnlyHolder(pieces, j, i)
  {
    forall k | 0 <= k < |pieces| && k != i ensures !InPiece(pieces[k], j) {
      assert pieces[k] == if k == 0 then p else rest[k - 1];
    }
  }

  lemma NoGlue(heading: string, body: seq<string>, maxChars: int, overlap: int)
    requires overlap <= 0
    ensures var pieces := Pieces(heading, body, maxChars, overlap, "", 0);
            forall n :: 0 <= n < |pieces| ==>
              pieces[n].lo < pieces[n].hi <= |body|
              && PieceText(heading, body, pieces[n]) == heading + Body(body, pieces[n].lo, pieces[n].hi)
  {
    var pieces := Pieces(heading, body, maxChars, overlap, "", 0);
    forall n | 0 <= n < |pieces|
      ensures pieces[n].lo < pieces[n].hi <= |body|
              && PieceText(heading, body, pieces[n]) == heading + Body(body, pieces[n].lo, pieces[n].hi)
    {
      PieceFacts(heading, body, maxChars, overlap, "", 0, n);
      assert heading + "" == heading;
    }
  }

  /** The chunks of blocks with a body, without overlap. */
  lemma PlainChunks(blocks: seq<string>, heading: string, body: seq<string>, maxChars: int, overlap: int)
    requires overlap <= 0 && heading == HeadingBlock(blocks) && body == BodyBlocks(blocks) && body != []
    ensures var pieces, chunks := Pieces(heading, body, maxChars, overlap, "", 0), Chunks(heading, body, maxChars, overlap, "", 0);
            && |chunks| == |pieces|
            && forall n :: 0 <= n < |chunks| ==>
                 pieces[n].lo < pieces[n].hi <= |body|
                 && chunks[n] == heading + Body(body, pieces[n].lo, pieces[n].hi)
  {
    BodyChunks(heading, body, maxChars, overlap, Pieces(heading, body, maxChars, overlap, "", 0));
    NoGlue(heading, body, maxChars, overlap);
  }

  lemma RunBlock(sectionText: string, a: nat, b: nat) returns (k: nat)
    requires FencedRun(SplitLines(sectionText), a, b)
    ensures var spans, blocks := BlockSpans(SplitLines(sectionText), 0), SectionBlocks(sectionText);
            k < |spans| == |blocks| && spans[k].lo <= a && spans[k].hi == b + 1
  {
    k := RunInOneBlock(SplitLines(sectionText), a, b, 0);
    BlocksRenderSpans(SplitLines(sectionText), 0);
  }

  /** What of a section's chunks holds block `k` when there is no overlap. */
  lemma OnlyChunkOf(blocks: seq<string>, heading: string, body: seq<string>, maxChars: int, overlap: int, k: nat) returns (i: nat)
    requires heading == HeadingBlock(blocks) && body == BodyBlocks(blocks) && body != [] && k < |blocks|
    ensures if heading != "" && k == 0 then heading == blocks[k]
            else IsOnlyHolder(Pieces(heading, body, maxChars, overlap, "", 0), if heading != "" then k - 1 else k, i)
  {
    i := 0;
    if heading == "" || k > 0 {
      i := OnlyHolder(heading, body, maxChars, overlap, "", 0, if heading != "" then k - 1 else k);
    }
  }

  /** Without overlap a chunk is the heading and whole body blocks, and a closed fenced block lies
      in one block that a single chunk holds, unless it is part of the heading's own block, which
      every chunk repeats whole. So no chunk holds only a part of it. */
  lemma NoChunkHoldsPart(sectionText: string, maxChars: int, overlap: int, a: nat, b: nat) returns (k: nat, i: nat)
    requires overlap <= 0 && FencedRun(SplitLines(sectionText), a, b) && BodyBlocks(SectionBlocks(sectionText)) != []
    ensures var spans, blocks := BlockSpans(SplitLines(sectionText), 0), SectionBlocks(sectionText);
            var heading, body := HeadingBlock(blocks), BodyBlocks(blocks);
            var pieces, chunks := Pieces(heading, body, maxChars, overlap, "", 0), SplitSection(sectionText, maxChars, overlap);
            && k < |spans| == |blocks| && spans[k].lo <= a && spans[k].hi == b + 1
            && |chunks| == |pieces|
            && (forall n :: 0 <= n < |chunks| ==>
                  pieces[n].lo < pieces[n].hi <= |body|
                  && chunks[n] == heading + Body(body, pieces[n].lo, pieces[n].hi))
            && (if heading != "" && k == 0 then heading == blocks[k]
                else IsOnlyHolder(pieces, if heading != "" then k - 1 else k, i))
  {
    var blocks := SectionBlocks(sectionText);
    k := RunBlock(sectionText, a, b);
    PlainChunks(blocks, HeadingBlock(blocks), BodyBlocks(blocks), maxChars, overlap);
    i := OnlyChunkOf(blocks, HeadingBlock(blocks), BodyBlocks(blocks), maxChars, overlap, k);
  }

  // ----- at every chunk size -----

  /** The chunk of `p` holds block `k`: every chunk has the heading's block, if there is one. */
  predicate HasBlock(p: Piece, headed: bool, k: int) {
    if headed then k == 0 || p.lo <= k - 1 < p.hi else p.lo <= k < p.hi
  }

  ghost predicate HasLine(spans: seq<Span>, headed: bool, p: Piece, l: int) {
    exists k :: 0 <= k < |spans| && HasBlock(p, headed, k) && spans[k].lo <= l < spans[k].hi
  }

  ghost predicate HasLines(spans: seq<Span>, headed: bool, p: Piece, a: int, b: int) {
    forall l :: a <= l <= b ==> HasLine(spans, headed, p, l)
  }

  /** One chunk of the section holds each of the lines `a` to `b` the chunker reads. A section
      without body blocks is a single chunk. */
  ghost predicate ChunkHoldsLines(sectionText: string, maxChars: int, overlap: int, a: int, b: int) {
    var spans, blocks := BlockSpans(SplitLines(sectionText), 0), SectionBlocks(sectionText);
    var heading, body := HeadingBlock(blocks), BodyBlocks(blocks);
    var pieces := Pieces(heading, body, maxChars, overlap, "", 0);
    if body == [] then HoldsLines(spans, a, b)
    else exists i :: 0 <= i < |pieces| && HasLines(spans, heading != "", pieces[i], a, b)
  }

  /** A chunk with the block of span `k` has the lines of that span. */
  lemma BlockHasLines(spans: seq<Span>, headed: bool, p: Piece, k: nat, a: int, b: int)
    requires k < |spans| && HasBlock(p, headed, k) && spans[k].lo <= a && b < spans[k].hi
    ensures HasLines(spans, headed, p, a, b)
  {
    forall l | a <= l <= b ensures HasLine(spans, headed, p, l) {
      assert HasBlock(p, headed, k) && spans[k].lo <= l < spans[k].hi;
    }
  }

  lemma SomePieceHasBlock(blocks: seq<string>, heading: string, body: seq<string>, maxChars: int, overlap: int, k: nat) returns (i: nat)
    requires heading == HeadingBlock(blocks) && body == BodyBlocks(blocks) && body != [] && k < |blocks|
    ensures i < |Pieces(heading, body, maxChars, overlap, "", 0)|
    ensures HasBlock(Pieces(heading, body, maxChars, overlap, "", 0)[i], heading != "", k)
  {
    i := OnlyHolder(heading, body, maxChars, overlap, "", 0, if heading != "" && k > 0 then k - 1 else k);
  }

  lemma BlockIsInChunk(sectionText: string, maxChars: int, overlap: int, a: int, b: int)
    requires HoldsLines(BlockSpans(SplitLines(sectionText), 0), a, b)
    ensures ChunkHoldsLines(sectionText, maxChars, overlap, a, b)
  {
    var spans, blocks := BlockSpans(SplitLines(sectionText), 0), SectionBlocks(sectionText);
    var heading, body := HeadingBlock(blocks), BodyBlocks(blocks);
    if body != [] {
      var k :| 0 <= k < |spans| && spans[k].lo <= a && b < spans[k].hi;
      BlocksRenderSpans(SplitLines(sectionText), 0);
      var i := SomePieceHasBlock(blocks, heading, body, maxChars, overlap, k);
      BlockHasLines(spans, heading != "", Pieces(heading, body, maxChars, overlap, "", 0)[i], k, a, b);
    }
  }

  /** At chunk size one every piece is a single block. */
  lemma {:induction false} SinglePieces(heading: string, body: seq<string>, overlap: int, glue: string, lo: nat, i: nat)
    requires lo <= |body| && i < |Pieces(heading, body, 1, overlap, glue, lo)|
    requires forall j :: 0 <= j < |body| ==> body[j] != ""
    ensures var p := Pieces(heading, body, 1, overlap, glue, lo)[i]; p.hi == p.lo + 1
    decreases i
  {
    var p, next, rest := FirstOfPieces(heading, body, 1, overlap, glue, lo);
    if i > 0 {
      SinglePieces(heading, body, overlap, next, p.hi, i - 1);
    } else {
      assert Body(body, lo, lo + 1) == "" + body[lo];
    }
  }

  /** Without a heading's block, single blocks hold no lines that no block holds. */
  lemma SingleHoldsBlock(spans: seq<Span>, p: Piece, a: int, b: int)
    requires p.hi == p.lo + 1 && a <= b && HasLines(spans, false, p, a, b)
    ensures HoldsLines(spans, a, b)
  {
    assert HasLine(spans, false, p, a) && HasLine(spans, false, p, b);
  }

  lemma FenceIsNoHeading(sectionText: string)
    requires SplitLines(sectionText) != [] && IsFence(SplitLines(sectionText)[0])
    ensures HeadingBlock(SectionBlocks(sectionText)) == ""
  {
    var read := SplitLines(sectionText);
    FenceShows(read);
    var e := BlockEnd(read, 0);
    FenceStarts(read[0..e]);
  }

  lemma FenceShows(read: seq<string>)
    requires read != [] && IsFence(read[0])
    ensures !Separator(read, 0)
  {
  }

  lemma FenceStarts(lines: seq<string>)
    requires lines != [] && IsFence(lines[0])
    ensures !IsHeading(SectionText(lines))
  {
    CharFacts();
    var s := Join(lines);
    assert s[0] == '`';
    SpacesEndIs(s, 0, 0);
    RStripFacts(s);
    assert !Blank(s);
    assert SectionText(lines)[0] == '`';
  }

  lemma ChunkOfOneIsBlock(sectionText: string, overlap: int, a: int, b: int)
    requires HeadingBlock(SectionBlocks(sectionText)) == "" && a <= b && ChunkHoldsLines(sectionText, 1, overlap, a, b)
    ensures HoldsLines(BlockSpans(SplitLines(sectionText), 0), a, b)
  {
    var spans, body := BlockSpans(SplitLines(sectionText), 0), SectionBlocks(sectionText);
    if body != [] {
      var pieces := Pieces("", body, 1, overlap, "", 0);
      var i :| 0 <= i < |pieces| && HasLines(spans, false, pieces[i], a, b);
      SectionBlocksShow(sectionText);
      SinglePieces("", body, overlap, "", 0, i);
      SingleHoldsBlock(spans, pieces[i], a, b);
    }
  }

  lemma FirstIsFence(lines: seq<string>, lo: nat, hi: nat, from: nat, read: seq<string>)
    requires ReadsAs(lines, lo, hi, from, read) && !KeepsFence(lines[from]) && |read| > 1
    ensures IsFence(read[0])
  {
    if IsFence(lines[from]) {
      StripKeepsFence(lines[from]);
    }
  }

  lemma TornSectionHasNoHeading(text: string, lines: seq<string>, k: nat, a: nat, b: nat, from: nat, read: seq<string>)
    requires lines == SplitLines(text) && FencedRun(lines, a, b) && ReadsSection(text, k, a, from, read)
    requires !KeepsFence(lines[from])
    ensures HeadingBlock(SectionBlocks(Sections(text)[k].text)) == ""
  {
    var span := SectionSpans(lines)[k];
    SectionReadsAs(text, lines, k, a, from, read, span);
    SectionSpanFacts(lines, k);
    SectionDoesNotCutRun(lines, a, b, span.hi);
    TornAt(lines, span.lo, span.hi, from, read, a, b);
    FirstIsFence(lines, span.lo, span.hi, from, read);
    FenceIsNoHeading(Sections(text)[k].text);
  }

  ghost predicate WholeAtEverySize(sectionText: string, a: int, b: int) {
    forall maxChars, overlap :: ChunkHoldsLines(sectionText, maxChars, overlap, a, b)
  }

  ghost predicate TornAtOne(sectionText: string, a: int, b: int) {
    forall overlap :: !ChunkHoldsLines(sectionText, 1, overlap, a, b)
  }

  /** What blocks hold lines whole, chunks of every size do. */
  lemma BlockIsInChunks(sectionText: string, a: int, b: int)
    requires HoldsLines(BlockSpans(SplitLines(sectionText), 0), a, b)
    ensures WholeAtEverySize(sectionText, a, b)
  {
    forall maxChars, overlap ensures ChunkHoldsLines(sectionText, maxChars, overlap, a, b) {
      BlockIsInChunk(sectionText, maxChars, overlap, a, b);
    }
  }

  lemma ChunksOfOneTear(sectionText: string, a: int, b: int)
    requires HeadingBlock(SectionBlocks(sectionText)) == "" && a <= b
    requires !HoldsLines(BlockSpans(SplitLines(sectionText), 0), a, b)
    ensures TornAtOne(sectionText, a, b)
  {
    forall overlap ensures !ChunkHoldsLines(sectionText, 1, overlap, a, b) {
      if ChunkHoldsLines(sectionText, 1, overlap, a, b) {
        ChunkOfOneIsBlock(sectionText, overlap, a, b);
      }
    }
  }

  lemma HeldEverywhereIff(sectionText: string, a: int, b: int, whole: bool)
    requires a <= b && (HoldsLines(BlockSpans(SplitLines(sectionText), 0), a, b) <==> whole)
    requires !whole ==> HeadingBlock(SectionBlocks(sectionText)) == ""
    ensures WholeAtEverySize(sectionText, a, b) <==> whole
    ensures TornAtOne(sectionText, a, b) <==> !whole
  {
    if whole {
      BlockIsInChunks(sectionText, a, b);
      assert ChunkHoldsLines(sectionText, 1, 0, a, b);
    } else {
      ChunksOfOneTear(sectionText, a, b);
      assert !ChunkHoldsLines(sectionText, 1, 0, a, b);
    }
  }

  /** The section's text, and the run's lines as the chunker counts them. */
  ghost predicate ReadsRun(text: string, k: nat, a: nat, b: nat, from: nat, read: seq<string>, sectionText: string, first: int, last: int) {
    && ReadsSection(text, k, a, from, read)
    && sectionText == Sections(text)[k].text && first == a - from && last == b - from
  }

  lemma RunIsWholeIff(text: string, lines: seq<string>, k: nat, a: nat, b: nat, from: nat, read: seq<string>, sectionText: string,
                      first: int, last: int)
    requires lines == SplitLines(text) && FencedRun(lines, a, b) && ReadsRun(text, k, a, b, from, read, sectionText, first, last)
    ensures HoldsLines(BlockSpans(SplitLines(sectionText), 0), first, last) <==> KeepsFence(lines[from])
    ensures !KeepsFence(lines[from]) ==> HeadingBlock(SectionBlocks(sectionText)) == ""
  {
    FencedCodeIsWholeIff(text, lines, k, a, b, from, read);
    if !KeepsFence(lines[from]) {
      TornSectionHasNoHeading(text, lines, k, a, b, from, read);
    }
  }

  /** A closed fenced block of a document lies whole in one chunk at every chunk size exactly when
      stripping does not turn the first line of its section into a fence; where it does, a chunk
      size of one tears the block, whatever the overlap. */
  lemma WholeAtEverySizeIff(text: string, lines: seq<string>, k: nat, a: nat, b: nat, from: nat, read: seq<string>, sectionText: string,
                            first: int, last: int)
    requires lines == SplitLines(text) && FencedRun(lines, a, b) && ReadsRun(text, k, a, b, from, read, sectionText, first, last)
    ensures WholeAtEverySize(sectionText, first, last) <==> KeepsFence(lines[from])
    ensures TornAtOne(sectionText, first, last) <==> !KeepsFence(lines[from])
  {
    RunIsWholeIff(text, lines, k, a, b, from, read, sectionText, first, last);
    HeldEverywhereIff(sectionText, first, last, KeepsFence(lines[from]));
  }
}
