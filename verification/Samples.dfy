/** A short text, for the concrete inputs on which a property fails. */
module Samples {
  import opened Text
  import opened Markdown
  import opened Blocks
  import opened Chunking
  import opened Pairs

  lemma LetterFacts()
    ensures !IsSpace('x') && !IsSpace('y') && !IsBreak('x') && !IsBreak('y')
  {
    Visible('x');
    Visible('y');
  }

  /** A text of one passage. */
  function TwoLines(): seq<string> {
    ["x", "y"]
  }

  function ShortText(): string {
    Join(TwoLines()) + "\n"
  }

  lemma ShortTextLines()
    ensures Join(TwoLines()) == "x\ny" && ShortText() == "x\ny\n"
    ensures SplitLines(ShortText()) == TwoLines() && SectionText(TwoLines()) == ShortText()
  {
    LetterFacts();
    var s := Join(TwoLines());
    assert TwoLines()[1..] == ["y"];
    SplitJoined(TwoLines());
    SpacesEndIs(s, 0, 0);
    ContentEndIs(s, |s|, |s|);
    assert s[0..] == s && s[..|s|] == s;
  }

  lemma OneSection()
    ensures Sections(ShortText()) == [Section("Document", ShortText())]
  {
    var lines := TwoLines();
    ShortTextLines();
    assert !IsFence(lines[0]) && !IsFence(lines[1]);
    assert HashesEnd(lines[0], 0) == 0 && HashesEnd(lines[1], 0) == 0;
    assert SectionEnd(lines, 2) == 2 && SectionEnd(lines, 1) == 2;
    assert lines[0..2] == lines;
    assert SectionsFrom(lines, 2) == [];
  }

  lemma OneBlock()
    ensures SectionBlocks(ShortText()) == [ShortText()] && HeadingBlock([ShortText()]) == ""
  {
    var lines := TwoLines();
    ShortTextLines();
    LetterFacts();
    assert !IsFence(lines[0]) && !IsFence(lines[1]) && !Blank(lines[0]) && !Blank(lines[1]);
    assert BlockEnd(lines, 2) == 2 && BlockEnd(lines, 1) == 2 && BlockEnd(lines, 0) == 2;
    assert lines[0..2] == lines;
    assert BlocksFrom(lines, 2) == [];
  }

  lemma OneChunk(body: seq<string>, maxChars: int, overlap: int)
    requires |body| == 1
    ensures Chunks("", body, maxChars, overlap, "", 0) == [body[0]]
  {
    var p := FirstPiece("", body, maxChars, "", 0);
    assert Body(body, 0, 1) == "" + body[0];
    assert PieceText("", body, p) == body[0];
    assert Chunks("", body, maxChars, overlap, Glue("", PieceText("", body, p), overlap), 1) == [];
  }

  lemma OnePart(chunkSize: int, overlap: int, text: string)
    requires SectionBlocks(text) == [text] && HeadingBlock([text]) == ""
    ensures SplitSection(text, chunkSize, overlap) == [text]
  {
    OneChunk([text], chunkSize, overlap);
  }

  lemma OneSectionParts(section: Section, chunkSize: int, overlap: int)
    requires SplitSection(section.text, chunkSize, overlap) == [section.text] && !IsDropped(section.heading, section.text)
    ensures |PairsOfSections([section], 1, chunkSize, overlap)| == 1
  {
    var parts := [section.text];
    assert PairsOfParts(section.heading, parts, 0) == [];
    assert |PairsOfParts(section.heading, parts, 1)| == 1;
    assert PairsOfSections([section], 0, chunkSize, overlap) == [];
  }

  lemma ShortTextStays()
    ensures !IsDropped("Document", ShortText())
  {
    ShortTextLines();
    LetterFacts();
    NonblankTwice(ShortText(), 0, 1, 2);
  }

  lemma OnePair(chunkSize: int, overlap: int)
    ensures |SectionPairs(ShortText(), chunkSize, overlap)| == 1
  {
    OneSection();
    OneBlock();
    OnePart(chunkSize, overlap, ShortText());
    ShortTextStays();
    OneSectionParts(Section("Document", ShortText()), chunkSize, overlap);
  }
}
