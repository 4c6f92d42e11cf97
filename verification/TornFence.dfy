/** A document whose closed fenced block no passage of the index holds when chunks are small. */
module TornFence {
  import opened Basics
  import opened Text
  import opened Markdown
  import opened Blocks
  import opened Chunking
  import opened Pairs
  import opened Fences
  import opened Samples

  /** An indented fence, then a closed fenced block. */
  function Lines(): seq<string> {
    ["  ```", "```", "x", "```"]
  }

  function Document(): string {
    Join(Lines()) + "\n"
  }

  /** The lines the chunker reads: the indented fence became a fence. */
  function Read(): seq<string> {
    ["```", "```", "x", "```"]
  }

  lemma DocumentLines()
    ensures SplitLines(Document()) == Lines() && AllBreakFree(Lines())
  {
    CharFacts();
    LetterFacts();
    SplitJoined(Lines());
  }

  lemma Flags()
    ensures FencedRun(Lines(), 1, 3)
    ensures forall i :: 0 <= i < 4 ==> !StartsSection(Lines(), i)
    ensures InFence(Read(), 1) && !InFence(Read(), 2) && !InFence(Read(), 3) && InFence(Read(), 4)
  {
    var lines := Lines();
    assert !InFence(lines, 0) && !IsFence(lines[0]) && !InFence(lines, 1);
    assert NoFenceBetween(lines, 1, 2) && !IsFence(lines[2]);
    assert forall i :: 0 <= i < 4 ==> HashesEnd(lines[i], 0) == 0;
    assert !InFence(Read(), 0) && !IsFence(Read()[2]);
  }

  lemma OneSection()
    ensures Sections(Document()) == [Section("Document", SectionText(Lines()))]
  {
    var lines := Lines();
    DocumentLines();
    Flags();
    assert SectionEnd(lines, 4) == 4 && SectionEnd(lines, 3) == 4 && SectionEnd(lines, 2) == 4 && SectionEnd(lines, 1) == 4;
    assert lines[0..4] == lines;
    assert SectionsFrom(lines, 4) == [];
  }

  lemma Stripped()
    ensures LStrip("  ```") == "```" && RStrip("```") == "```" && !Blank("  ```") && !Blank("```")
  {
    CharFacts();
    var s, t := "  ```", "```";
    assert !IsSpace(s[2]) && !IsSpace(t[0]);
    SpacesEndIs(s, 0, 2);
    assert s[2..] == t;
    ContentEndIs(t, 3, 3);
    assert t[..3] == t;
  }

  lemma TrimmedLines()
    ensures Trim(Lines()) == Read()
  {
    var front := TrimFront(Lines());
    Stripped();
    assert FirstKept(Lines(), 0) == 0;
    assert front == Read();
    assert LastKept(front, 3) == 3;
  }

  lemma SectionLines()
    ensures SplitLines(SectionText(Lines())) == Read()
  {
    DocumentLines();
    SplitStripped(Lines());
    TrimmedLines();
  }

  /** Fences at 0, 1 and 3 and text at 2: the first two lines are a block, the others the next. */
  lemma BlockEnds(read: seq<string>)
    requires |read| == 4 && IsFence(read[0]) && IsFence(read[1]) && !IsFence(read[2]) && IsFence(read[3]) && !Blank(read[2])
    ensures !Separator(read, 0) && BlockEnd(read, 0) == 2
    ensures !Separator(read, 2) && BlockEnd(read, 2) == 4
  {
    assert !InFence(read, 0) && InFence(read, 1) && !InFence(read, 2) && !InFence(read, 3) && InFence(read, 4);
    assert BlockEnd(read, 1) == 2;
    assert BlockEnd(read, 4) == 4;
    assert BlockEnd(read, 3) == 4;
  }

  lemma BlockTexts(read: seq<string>, first: seq<string>, second: seq<string>)
    requires |read| == 4 && !Separator(read, 0) && BlockEnd(read, 0) == 2 && !Separator(read, 2) && BlockEnd(read, 2) == 4
    requires first == read[0..2] && second == read[2..4]
    ensures BlocksFrom(read, 0) == [SectionText(first), SectionText(second)]
  {
    assert BlocksFrom(read, 4) == [];
    assert BlocksFrom(read, 2) == [SectionText(second)] + BlocksFrom(read, 4);
    assert BlocksFrom(read, 0) == [SectionText(first)] + BlocksFrom(read, 2);
  }

  lemma TwoBlocks()
    ensures SectionBlocks(SectionText(Lines())) == [SectionText(["```", "```"]), SectionText(["x", "```"])]
  {
    SectionLines();
    LetterFacts();
    assert !Blank("x") by {
      assert !IsSpace("x"[0]);
    }
    BlockEnds(Read());
    BlockTexts(Read(), ["```", "```"], ["x", "```"]);
  }

  lemma TextBound(lines: seq<string>)
    ensures |SectionText(lines)| <= |Join(lines)| + 1
  {
    LStripFacts(Join(lines));
    RStripFacts(LStrip(Join(lines)));
  }

  lemma SmallBlocks()
    ensures |SectionText(["```", "```"])| <= 8 && |SectionText(["x", "```"])| <= 8
    ensures HeadingBlock([SectionText(["```", "```"]), SectionText(["x", "```"])]) == ""
  {
    var first := ["```", "```"];
    TextBound(first);
    TextBound(["x", "```"]);
    assert first[1..] == ["```"] && ["x", "```"][1..] == ["```"];
    NotAHeading(Join(first));
  }

  lemma NotAHeading(s: string)
    requires s != "" && s[0] == '`'
    ensures !IsHeading(Strip(s) + "\n")
  {
    CharFacts();
    SpacesEndIs(s, 0, 0);
    assert LStrip(s) == s;
    RStripFacts(s);
    assert !Blank(s);
    assert (Strip(s) + "\n")[0] == '`';
  }

  /** Without a heading and without overlap, blocks within the limit give chunks within it. */
  lemma ChunksFit(body: seq<string>, maxChars: int, chunk: string)
    requires forall i :: 0 <= i < |body| ==> |body[i]| <= maxChars
    requires chunk in Chunks("", body, maxChars, 0, "", 0)
    ensures |chunk| <= maxChars
  {
    var pieces, chunks := Pieces("", body, maxChars, 0, "", 0), Chunks("", body, maxChars, 0, "", 0);
    BodyChunks("", body, maxChars, 0, pieces);
    var k :| 0 <= k < |chunks| && chunks[k] == chunk;
    assert BoundedChunk("", body, maxChars, 0, pieces[k]);
  }

  lemma PartsOfBlocks(sectionText: string, first: string, second: string, part: string)
    requires SectionBlocks(sectionText) == [first, second] && HeadingBlock([first, second]) == ""
    requires |first| <= 8 && |second| <= 8 && part in SplitSection(sectionText, 8, 0)
    ensures |part| <= 8
  {
    assert part in Chunks("", [first, second], 8, 0, "", 0);
    ChunksFit([first, second], 8, part);
  }

  lemma PartsFit(part: string)
    requires part in SplitSection(SectionText(Lines()), 8, 0)
    ensures |part| <= 8
  {
    TwoBlocks();
    SmallBlocks();
    PartsOfBlocks(SectionText(Lines()), SectionText(["```", "```"]), SectionText(["x", "```"]), part);
  }

  lemma JoinThree(a: string, b: string, c: string)
    ensures Join([a, b, c]) == a + "\n" + (b + "\n" + c)
  {
    assert [a, b, c][1..] == [b, c] && [b, c][1..] == [c];
    assert Join([b, c]) == b + "\n" + Join([c]);
  }

  lemma AlreadyStripped(s: string)
    requires s != "" && !IsSpace(s[|s| - 1])
    ensures RStrip(s) == s
  {
    ContentEndIs(s, |s|, |s|);
  }

  lemma RunIsLonger()
    ensures |RunText(Lines(), 1, 3)| == 9
  {
    var lines := Lines();
    CharFacts();
    var run := lines[1..4];
    assert run == ["```", "x", "```"];
    JoinThree("```", "x", "```");
    assert |Join(run)| == 9 && Join(run)[8] == '`';
    AlreadyStripped(Join(run));
  }

  /** Lines 1 to 3 are a closed fenced block, the first line of its section does not keep its
      meaning, and with chunks of 8 characters no passage holds the block. */
  lemma BlockIsNotIndexed()
    ensures FencedRun(SplitLines(Document()), 1, 3)
    ensures !KeepsFence(SplitLines(Document())[0])
    ensures forall pair :: pair in SectionPairs(Document(), 8, 0) ==> !Contains(pair.text, RunText(Lines(), 1, 3))
  {
    DocumentLines();
    Flags();
    Stripped();
    forall pair | pair in SectionPairs(Document(), 8, 0) ensures !Contains(pair.text, RunText(Lines(), 1, 3)) {
      PairFits(pair);
      RunIsLonger();
    }
  }

  lemma PairFits(pair: Pair)
    requires pair in SectionPairs(Document(), 8, 0)
    ensures |pair.text| <= 8
  {
    PairsAreKeptParts(Document(), 8, 0, pair);
    OneSection();
    PartsFit(pair.text);
  }

  // ----- a larger chunk size -----

  lemma TwoLineText(a: string, b: string, text: string)
    requires text == a + "\n" + b && a != "" && !IsSpace(a[0]) && b != "" && !IsSpace(b[|b| - 1])
    ensures SectionText([a, b]) == text + "\n"
  {
    assert [a, b][1..] == [b];
    assert Join([a, b]) == a + "\n" + Join([b]) == text;
    SpacesEndIs(text, 0, 0);
    assert text[0..] == text;
    AlreadyStripped(text);
  }

  /** Blocks that fit together make one chunk. */
  lemma OneChunkOfTwo(first: string, second: string, maxChars: int)
    requires |first| + |second| <= maxChars
    ensures Chunks("", [first, second], maxChars, 0, "", 0) == [first + second]
  {
    var body := [first, second];
    assert Body(body, 0, 0) == "" && Body(body, 0, 1) == "" + first && Body(body, 0, 2) == Body(body, 0, 1) + second;
    assert ChunkText("", body, "", 0, 1) == first && ChunkText("", body, "", 0, 2) == first + second;
    assert PieceEnd("", body, maxChars, "", 0, 2) == 2;
    var p := FirstPiece("", body, maxChars, "", 0);
    assert p == Piece("", 0, 2);
    assert Chunks("", body, maxChars, 0, Glue("", PieceText("", body, p), 0), 2) == [];
  }

  lemma PartOfTwo(sectionText: string, first: string, second: string)
    requires SectionBlocks(sectionText) == [first, second] && HeadingBlock([first, second]) == "" && |first| + |second| <= 900
    ensures first + second in SplitSection(sectionText, 900, 0)
  {
    OneChunkOfTwo(first, second, 900);
    assert SplitSection(sectionText, 900, 0) == [first + second];
  }

  lemma RunOccurs(part: string)
    requires part == "```\n```\n" + "x\n```\n"
    ensures Contains(part, RunText(Lines(), 1, 3))
  {
    CharFacts();
    var run := Lines()[1..4];
    assert run == ["```", "x", "```"];
    JoinThree("```", "x", "```");
    AlreadyStripped(Join(run));
    assert Join(run) == "```\nx\n```";
    assert OccursAt(part, Join(run), 4);
    OccursUpTo(part, Join(run), 0, 4);
  }

  lemma RejoinedPair(part: string)
    requires part in SplitSection(SectionText(Lines()), 900, 0) && !IsDropped("Document", part)
    ensures Pair("Document", part) in SectionPairs(Document(), 900, 0)
  {
    OneSection();
    PairsAreKeptParts(Document(), 900, 0, Pair("Document", part));
    assert IsPartOf(Sections(Document())[0], 900, 0, Pair("Document", part));
  }

  lemma Halves()
    ensures SectionText(["```", "```"]) == "```\n```\n" && SectionText(["x", "```"]) == "x\n```\n"
  {
    CharFacts();
    LetterFacts();
    TwoLineText("```", "```", "```\n```");
    TwoLineText("x", "```", "x\n```");
  }

  lemma BothHalves(first: string, second: string)
    requires first == SectionText(["```", "```"]) && second == SectionText(["x", "```"])
    ensures first + second in SplitSection(SectionText(Lines()), 900, 0)
  {
    TwoBlocks();
    SmallBlocks();
    PartOfTwo(SectionText(Lines()), first, second);
  }

  lemma RunIsShown(part: string)
    requires Contains(part, RunText(Lines(), 1, 3))
    ensures !IsDropped("Document", part)
  {
    Flags();
    RunIsNotDropped(Lines(), 1, 3, "Document", part);
  }

  /** With chunks of 900 characters the two halves come together again: what a torn block loses
      depends on the chunk size. */
  lemma BlockIsRejoined()
    ensures exists pair :: pair in SectionPairs(Document(), 900, 0) && Contains(pair.text, RunText(Lines(), 1, 3))
  {
    var first, second := SectionText(["```", "```"]), SectionText(["x", "```"]);
    Halves();
    BothHalves(first, second);
    RunOccurs(first + second);
    RunIsShown(first + second);
    RejoinedPair(first + second);
  }
}
