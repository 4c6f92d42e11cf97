/** `split_section`: a greedy chunker that repeats the heading and carries an overlap. */
module Chunking {
  import opened Basics
  import opened Text
  import opened Spans
  import opened Markdown
  import opened Blocks

  /** One chunk: the heading, then `glue` carried over from the chunk before, then body blocks `lo` to `hi`. */
  datatype Piece = Piece(glue: string, lo: nat, hi: nat)

  /** The text of blocks `lo` to `hi`. */
  function Body(body: seq<string>, lo: nat, hi: nat): string
    requires lo <= hi <= |body|
    decreases hi - lo
  {
    if lo == hi then "" else Body(body, lo, hi - 1) + body[hi - 1]
  }

  function ChunkText(heading: string, body: seq<string>, glue: string, lo: nat, hi: nat): string
    requires lo <= hi <= |body|
  {
    heading + glue + Body(body, lo, hi)
  }

  function PieceText(heading: string, body: seq<string>, p: Piece): string
    requires p.lo <= p.hi <= |body|
  {
    ChunkText(heading, body, p.glue, p.lo, p.hi)
  }

  /** `text[-overlap:].lstrip()` for a positive overlap, else nothing. */
  function Tail(current: string, overlap: int): string {
    if overlap <= 0 then ""
    else if overlap >= |current| then LStrip(current)
    else LStrip(current[|current| - overlap..])
  }

  /** What is put between the heading and the first block of the next chunk. */
  function Glue(heading: string, current: string, overlap: int): string {
    var tail := Tail(current, overlap);
    if tail != "" && !Contains(heading, tail) then tail + "\n" else ""
  }

  /** How far the chunk that holds the blocks from `lo` up to `i` goes on. */
  function PieceEnd(heading: string, body: seq<string>, maxChars: int, glue: string, lo: nat, i: nat): (k: nat)
    requires lo <= i <= |body|
    ensures i <= k <= |body|
    decreases |body| - i
  {
    if i == |body| || |ChunkText(heading, body, glue, lo, i) + body[i]| > maxChars then i
    else PieceEnd(heading, body, maxChars, glue, lo, i + 1)
  }

  function FirstPiece(heading: string, body: seq<string>, maxChars: int, glue: string, lo: nat): (p: Piece)
    requires lo < |body|
    ensures p.glue == glue && p.lo == lo < p.hi <= |body|
  {
    Piece(glue, lo, PieceEnd(heading, body, maxChars, glue, lo, lo + 1))
  }

  function Pieces(heading: string, body: seq<string>, maxChars: int, overlap: int, glue: string, lo: nat): (pieces: seq<Piece>)
    requires lo <= |body|
    decreases |body| - lo
  {
    if lo == |body| then []
    else
      var p := FirstPiece(heading, body, maxChars, glue, lo);
      [p] + Pieces(heading, body, maxChars, overlap, Glue(heading, PieceText(heading, body, p), overlap), p.hi)
  }

  function Chunks(heading: string, body: seq<string>, maxChars: int, overlap: int, glue: string, lo: nat): seq<string>
    requires lo <= |body|
    decreases |body| - lo
  {
    if lo == |body| then []
    else
      var p := FirstPiece(heading, body, maxChars, glue, lo);
      var text := PieceText(heading, body, p);
      [text] + Chunks(heading, body, maxChars, overlap, Glue(heading, text, overlap), p.hi)
  }

  /** The heading block of a section, or nothing. */
  function HeadingBlock(blocks: seq<string>): string {
    if blocks != [] && IsHeading(blocks[0]) then blocks[0] else ""
  }

  function BodyBlocks(blocks: seq<string>): seq<string> {
    if HeadingBlock(blocks) != "" then blocks[1..] else blocks
  }

  function SplitSection(sectionText: string, maxChars: int, overlap: int): seq<string> {
    var blocks := SectionBlocks(sectionText);
    var body := BodyBlocks(blocks);
    if blocks == [] then []
    else if body == [] then [sectionText]
    else Chunks(HeadingBlock(blocks), body, maxChars, overlap, "", 0)
  }

  // ----- what the chunks are -----

  /** Piece `k` starts where the one before ends and carries the glue that one leaves; it
      takes a further block exactly when the chunk stays within the limit. */
  ghost predicate IsPiece(heading: string, body: seq<string>, maxChars: int, overlap: int, start: nat, glue: string, p: Piece) {
    && p.lo == start < p.hi <= |body|
    && p.glue == glue
    && (forall i :: p.lo + 1 < i <= p.hi ==> |ChunkText(heading, body, glue, start, i)| <= maxChars)
    && (p.hi < |body| ==> |PieceText(heading, body, p)| + |body[p.hi]| > maxChars)
  }

  ghost predicate FollowsPiece(heading: string, body: seq<string>, maxChars: int, overlap: int, q: Piece, p: Piece) {
    && q.lo <= q.hi <= |body|
    && IsPiece(heading, body, maxChars, overlap, q.hi, Glue(heading, PieceText(heading, body, q), overlap), p)
  }

  /** The declarative reading of the chunks of the body blocks from `lo` on. */
  ghost predicate IsChunking(heading: string, body: seq<string>, maxChars: int, overlap: int, glue: string, lo: nat,
                             pieces: seq<Piece>)
  {
    && (pieces == [] <==> lo == |body|)
    && (pieces != [] ==> IsPiece(heading, body, maxChars, overlap, lo, glue, pieces[0]))
    && (forall j, k :: 0 <= j < k < |pieces| && k == j + 1 ==>
          FollowsPiece(heading, body, maxChars, overlap, pieces[j], pieces[k]))
    && (pieces != [] ==> pieces[|pieces| - 1].hi == |body|)
  }

  lemma PieceGrows(heading: string, body: seq<string>, glue: string, lo: nat, hi: nat)
    requires lo <= hi < |body|
    ensures |ChunkText(heading, body, glue, lo, hi + 1)| == |ChunkText(heading, body, glue, lo, hi)| + |body[hi]|
  {
  }

  /** Every chunk of blocks past `i` up to `k` stays within the limit, and no further block fits. */
  ghost predicate IsGreedy(heading: string, body: seq<string>, maxChars: int, glue: string, lo: nat, i: nat, k: nat) {
    && lo <= i <= k <= |body|
    && (forall j :: i < j <= k ==> |ChunkText(heading, body, glue, lo, j)| <= maxChars)
    && (k < |body| ==> |ChunkText(heading, body, glue, lo, k)| + |body[k]| > maxChars)
  }

  lemma GreedyFrom(heading: string, body: seq<string>, maxChars: int, glue: string, lo: nat, i: nat, k: nat)
    requires lo <= i < |body| && |ChunkText(heading, body, glue, lo, i + 1)| <= maxChars
    requires IsGreedy(heading, body, maxChars, glue, lo, i + 1, k)
    ensures IsGreedy(heading, body, maxChars, glue, lo, i, k)
  {
  }

  lemma {:induction false} PieceEndGreedy(heading: string, body: seq<string>, maxChars: int, glue: string, lo: nat, i: nat)
    requires lo < i <= |body|
    ensures IsGreedy(heading, body, maxChars, glue, lo, i, PieceEnd(heading, body, maxChars, glue, lo, i))
    decreases |body| - i
  {
    if i < |body| {
      var text := ChunkText(heading, body, glue, lo, i);
      assert |text + body[i]| == |text| + |body[i]|;
      if |text + body[i]| <= maxChars {
        PieceGrows(heading, body, glue, lo, i);
        PieceEndGreedy(heading, body, maxChars, glue, lo, i + 1);
        GreedyFrom(heading, body, maxChars, glue, lo, i, PieceEnd(heading, body, maxChars, glue, lo, i + 1));
      }
    }
  }

  lemma FirstIsPiece(heading: string, body: seq<string>, maxChars: int, overlap: int, glue: string, lo: nat)
    requires lo < |body|
    ensures IsPiece(heading, body, maxChars, overlap, lo, glue, FirstPiece(heading, body, maxChars, glue, lo))
  {
    PieceEndGreedy(heading, body, maxChars, glue, lo, lo + 1);
  }

  lemma {:induction false} PiecesAreAChunking(heading: string, body: seq<string>, maxChars: int, overlap: int, glue: string, lo: nat)
    requires lo <= |body|
    ensures IsChunking(heading, body, maxChars, overlap, glue, lo, Pieces(heading, body, maxChars, overlap, glue, lo))
    decreases |body| - lo
  {
    if lo < |body| {
      var p := FirstPiece(heading, body, maxChars, glue, lo);
      var glue' := Glue(heading, PieceText(heading, body, p), overlap);
      var rest := Pieces(heading, body, maxChars, overlap, glue', p.hi);
      FirstIsPiece(heading, body, maxChars, overlap, glue, lo);
      PiecesAreAChunking(heading, body, maxChars, overlap, glue', p.hi);
      PrependPiece(heading, body, maxChars, overlap, p, glue', rest, [p] + rest);
    }
  }

  lemma PrependPiece(heading: string, body: seq<string>, maxChars: int, overlap: int, p: Piece, glue': string,
                     rest: seq<Piece>, pieces: seq<Piece>)
    requires p.lo <= p.hi <= |body| && IsPiece(heading, body, maxChars, overlap, p.lo, p.glue, p)
    requires glue' == Glue(heading, PieceText(heading, body, p), overlap)
    requires IsChunking(heading, body, maxChars, overlap, glue', p.hi, rest) && pieces == [p] + rest
    ensures IsChunking(heading, body, maxChars, overlap, p.glue, p.lo, pieces)
  {
    forall j, k | 0 <= j < k < |pieces| && k == j + 1
      ensures FollowsPiece(heading, body, maxChars, overlap, pieces[j], pieces[k])
    {
      assert pieces[k] == rest[k - 1];
      if j > 0 {
        assert pieces[j] == rest[j - 1];
      }
    }
    assert rest != [] ==> pieces[|pieces| - 1] == rest[|rest| - 1];
  }

  lemma SamePiece(heading: string, body: seq<string>, maxChars: int, overlap: int, start: nat, glue: string, p: Piece, q: Piece)
    requires IsPiece(heading, body, maxChars, overlap, start, glue, p)
    requires IsPiece(heading, body, maxChars, overlap, start, glue, q)
    ensures p.hi >= q.hi
  {
    if p.hi < q.hi {
      PieceGrows(heading, body, glue, start, p.hi);
    }
  }

  /** No other pieces are a chunking. */
  lemma {:induction false} ChunkingUnique(heading: string, body: seq<string>, maxChars: int, overlap: int, glue: string,
                                          lo: nat, pieces: seq<Piece>)
    requires lo <= |body| && IsChunking(heading, body, maxChars, overlap, glue, lo, pieces)
    ensures pieces == Pieces(heading, body, maxChars, overlap, glue, lo)
    decreases |pieces|
  {
    if pieces != [] {
      var p, q, rest := pieces[0], FirstPiece(heading, body, maxChars, glue, lo), pieces[1..];
      FirstIsPiece(heading, body, maxChars, overlap, glue, lo);
      SamePiece(heading, body, maxChars, overlap, lo, glue, p, q);
      SamePiece(heading, body, maxChars, overlap, lo, glue, q, p);
      assert p == q;
      DropPiece(heading, body, maxChars, overlap, glue, lo, pieces);
      ChunkingUnique(heading, body, maxChars, overlap, Glue(heading, PieceText(heading, body, p), overlap), p.hi, rest);
    }
  }

  lemma DropPiece(heading: string, body: seq<string>, maxChars: int, overlap: int, glue: string, lo: nat, pieces: seq<Piece>)
    requires lo <= |body| && IsChunking(heading, body, maxChars, overlap, glue, lo, pieces) && pieces != []
    ensures IsChunking(heading, body, maxChars, overlap, Glue(heading, PieceText(heading, body, pieces[0]), overlap),
                       pieces[0].hi, pieces[1..])
  {
    var rest := pieces[1..];
    if rest != [] {
      assert rest[0] == pieces[1] && FollowsPiece(heading, body, maxChars, overlap, pieces[0], pieces[1]);
    }
    forall j, k | 0 <= j < k < |rest| && k == j + 1
      ensures FollowsPiece(heading, body, maxChars, overlap, rest[j], rest[k])
    {
      assert rest[j] == pieces[j + 1] && rest[k] == pieces[k + 1];
    }
    assert rest == [] <==> pieces[0].hi == |body| by {
      if rest != [] {
        assert FollowsPiece(heading, body, maxChars, overlap, pieces[0], pieces[1]);
      }
    }
  }

  lemma {:induction false} ChunksRenderPieces(heading: string, body: seq<string>, maxChars: int, overlap: int, glue: string, lo: nat)
    requires lo <= |body|
    ensures var pieces, chunks := Pieces(heading, body, maxChars, overlap, glue, lo), Chunks(heading, body, maxChars, overlap, glue, lo);
            && |chunks| == |pieces| <= |body| - lo
            && forall k :: 0 <= k < |pieces| ==> pieces[k].lo < pieces[k].hi <= |body| && chunks[k] == PieceText(heading, body, pieces[k])
    decreases |body| - lo
  {
    if lo < |body| {
      var p := FirstPiece(heading, body, maxChars, glue, lo);
      ChunksRenderPieces(heading, body, maxChars, overlap, Glue(heading, PieceText(heading, body, p), overlap), p.hi);
    }
  }

  lemma GlueBound(heading: string, current: string, overlap: int)
    ensures overlap <= 0 ==> Glue(heading, current, overlap) == ""
    ensures overlap > 0 ==> |Glue(heading, current, overlap)| <= overlap + 1
  {
    if overlap > 0 {
      LStripFacts(if overlap >= |current| then current else current[|current| - overlap..]);
    }
  }

  /** A chunk within the limit, or the heading, at most `overlap` carried characters, and one block. */
  ghost predicate BoundedChunk(heading: string, body: seq<string>, maxChars: int, overlap: int, p: Piece)
    requires p.lo < p.hi <= |body|
  {
    var size := |PieceText(heading, body, p)|;
    && (size <= maxChars || (p.hi == p.lo + 1 && size == |heading| + |p.glue| + |body[p.lo]|))
    && |p.glue| <= (if overlap <= 0 then 0 else overlap + 1)
  }

  lemma PieceBound(heading: string, body: seq<string>, maxChars: int, overlap: int, start: nat, glue: string, p: Piece)
    requires IsPiece(heading, body, maxChars, overlap, start, glue, p)
    requires |glue| <= (if overlap <= 0 then 0 else overlap + 1)
    ensures BoundedChunk(heading, body, maxChars, overlap, p)
  {
    assert p == Piece(glue, start, p.hi);
    if p.hi == p.lo + 1 {
      assert Body(body, p.lo, p.lo) == "" && Body(body, p.lo, p.hi) == "" + body[p.lo];
    }
  }

  lemma HeadingAndBody(blocks: seq<string>)
    ensures blocks == if HeadingBlock(blocks) == "" then BodyBlocks(blocks) else [HeadingBlock(blocks)] + BodyBlocks(blocks)
  {
  }

  /** What `split_section` promises for a section with a body: the pieces are the one chunking of
      the body blocks, so every block is kept whole, once and in order; every chunk starts with the
      heading; there are no more chunks than blocks; and only a single block can pass the limit. */
  lemma SplitKeepsBlocks(sectionText: string, maxChars: int, overlap: int, ps: seq<Piece>)
    requires BodyBlocks(SectionBlocks(sectionText)) != []
    ensures var blocks := SectionBlocks(sectionText);
            var heading, body := HeadingBlock(blocks), BodyBlocks(blocks);
            var pieces, chunks := Pieces(heading, body, maxChars, overlap, "", 0), SplitSection(sectionText, maxChars, overlap);
            && blocks == (if heading == "" then body else [heading] + body)
            && (IsChunking(heading, body, maxChars, overlap, "", 0, ps) <==> ps == pieces)
            && |chunks| == |pieces| <= |body|
            && (forall k :: 0 <= k < |pieces| ==>
                  && pieces[k].lo < pieces[k].hi <= |body|
                  && chunks[k] == PieceText(heading, body, pieces[k])
                  && BoundedChunk(heading, body, maxChars, overlap, pieces[k]))
  {
    var blocks := SectionBlocks(sectionText);
    HeadingAndBody(blocks);
    BodyChunks(HeadingBlock(blocks), BodyBlocks(blocks), maxChars, overlap, ps);
  }

  lemma BodyChunks(heading: string, body: seq<string>, maxChars: int, overlap: int, ps: seq<Piece>)
    ensures var pieces, chunks := Pieces(heading, body, maxChars, overlap, "", 0), Chunks(heading, body, maxChars, overlap, "", 0);
            && (IsChunking(heading, body, maxChars, overlap, "", 0, ps) <==> ps == pieces)
            && |chunks| == |pieces| <= |body|
            && (forall k :: 0 <= k < |pieces| ==>
                  && pieces[k].lo < pieces[k].hi <= |body|
                  && chunks[k] == PieceText(heading, body, pieces[k])
                  && BoundedChunk(heading, body, maxChars, overlap, pieces[k]))
  {
    PiecesAreAChunking(heading, body, maxChars, overlap, "", 0);
    ChunksRenderPieces(heading, body, maxChars, overlap, "", 0);
    PiecesBounded(heading, body, maxChars, overlap);
    if IsChunking(heading, body, maxChars, overlap, "", 0, ps) {
      ChunkingUnique(heading, body, maxChars, overlap, "", 0, ps);
    }
  }

  // ----- what is carried over -----

  /** `t` is what `current` ends with after the whitespace among its last `overlap` characters. */
  ghost predicate IsCarried(current: string, overlap: int, t: string) {
    && |t| <= |current| && |t| <= overlap && current[|current| - |t|..] == t
    && (t != "" ==> !IsSpace(t[0]))
    && forall i :: 0 <= i < |current| - |t| && i >= |current| - overlap ==> IsSpace(current[i])
  }

  lemma TailIsCarried(current: string, overlap: int)
    requires overlap > 0
    ensures IsCarried(current, overlap, Tail(current, overlap))
  {
    EndIsCarried(current, overlap, if overlap >= |current| then current else current[|current| - overlap..]);
  }

  lemma EndIsCarried(current: string, overlap: int, end: string)
    requires overlap > 0 && |end| <= |current| && end == current[|current| - |end|..]
    requires |end| == if overlap >= |current| then |current| else overlap
    ensures IsCarried(current, overlap, LStrip(end))
  {
    var t, d := LStrip(end), |current| - |end|;
    LStripFacts(end);
    SpacesEndFacts(end, 0);
    assert |t| == |end| - SpacesEnd(end, 0);
    forall i | 0 <= i < |current| - |t| && i >= |current| - overlap ensures IsSpace(current[i]) {
      assert current[i] == end[i - d];
    }
  }

  lemma IsHeadingShows(s: string)
    ensures IsHeading(s) ==> s != ""
  {
  }

  lemma SpaceBefore(current: string, overlap: int, u: string, n: nat)
    requires IsCarried(current, overlap, u)
    ensures |u| < n <= |current| && n <= overlap ==> IsSpace(current[|current| - n])
  {
  }

  /** Nothing else is carried. */
  lemma CarriedNotLonger(current: string, overlap: int, t: string, u: string)
    requires IsCarried(current, overlap, t) && IsCarried(current, overlap, u)
    ensures |t| <= |u|
  {
    assert t != "" ==> current[|current| - |t|] == t[0];
    SpaceBefore(current, overlap, u, |t|);
  }

  lemma PieceCarries(heading: string, body: seq<string>, maxChars: int, overlap: int, pieces: seq<Piece>, chunks: seq<string>, k: nat)
    requires pieces == Pieces(heading, body, maxChars, overlap, "", 0) && chunks == Chunks(heading, body, maxChars, overlap, "", 0)
    requires 0 < k < |chunks|
    ensures |chunks| == |pieces| && pieces[k].lo < pieces[k].hi <= |body|
    ensures chunks[k] == heading + Glue(heading, chunks[k - 1], overlap) + Body(body, pieces[k].lo, pieces[k].hi)
  {
    BodyChunks(heading, body, maxChars, overlap, pieces);
    assert FollowsPiece(heading, body, maxChars, overlap, pieces[k - 1], pieces[k]);
  }

  lemma GlueIs(heading: string, current: string, overlap: int, t: string)
    requires overlap > 0 && t == Tail(current, overlap)
    ensures IsCarried(current, overlap, t)
    ensures Glue(heading, current, overlap) == if t == "" || exists i :: OccursAt(heading, t, i) then "" else t + "\n"
  {
    TailIsCarried(current, overlap);
    ContainsIff(heading, t);
  }

  /** With a positive overlap chunk `k > 0` is the heading, the carried end of the chunk before and whole
      blocks; nothing is carried when that end is blank or occurs in the heading. */
  lemma ChunkCarriesOver(sectionText: string, maxChars: int, overlap: int, blocks: seq<string>, heading: string, body: seq<string>,
                         chunks: seq<string>, k: nat)
    returns (t: string, lo: nat, hi: nat)
    requires blocks == SectionBlocks(sectionText) && blocks != [] && body != []
    requires heading == (if IsHeading(blocks[0]) then blocks[0] else "")
    requires body == (if IsHeading(blocks[0]) then blocks[1..] else blocks)
    requires chunks == SplitSection(sectionText, maxChars, overlap) && overlap > 0 && 0 < k < |chunks|
    ensures lo < hi <= |body| && IsCarried(chunks[k - 1], overlap, t)
    ensures chunks[k] == heading + (if t == "" || exists i :: OccursAt(heading, t, i) then "" else t + "\n") + Body(body, lo, hi)
  {
    var pieces := Pieces(heading, body, maxChars, overlap, "", 0);
    IsHeadingShows(blocks[0]);
    PieceCarries(heading, body, maxChars, overlap, pieces, chunks, k);
    t, lo, hi := Tail(chunks[k - 1], overlap), pieces[k].lo, pieces[k].hi;
    GlueIs(heading, chunks[k - 1], overlap, t);
  }

  lemma PiecesBounded(heading: string, body: seq<string>, maxChars: int, overlap: int)
    ensures var pieces := Pieces(heading, body, maxChars, overlap, "", 0);
            forall k :: 0 <= k < |pieces| ==>
              pieces[k].lo < pieces[k].hi <= |body| && BoundedChunk(heading, body, maxChars, overlap, pieces[k])
  {
    var pieces := Pieces(heading, body, maxChars, overlap, "", 0);
    PiecesAreAChunking(heading, body, maxChars, overlap, "", 0);
    forall k | 0 <= k < |pieces|
      ensures pieces[k].lo < pieces[k].hi <= |body| && BoundedChunk(heading, body, maxChars, overlap, pieces[k])
    {
      if k == 0 {
        PieceBound(heading, body, maxChars, overlap, 0, "", pieces[0]);
      } else {
        var q := pieces[k - 1];
        assert FollowsPiece(heading, body, maxChars, overlap, q, pieces[k]);
        GlueBound(heading, PieceText(heading, body, q), overlap);
        PieceBound(heading, body, maxChars, overlap, q.hi, pieces[k].glue, pieces[k]);
      }
    }
  }

  // ----- the loop -----

  lemma {:induction false} BodyShows(body: seq<string>, lo: nat, hi: nat)
    requires lo < hi <= |body| && forall k :: 0 <= k < |body| ==> IsBlockText(body[k])
    ensures !Blank(Body(body, lo, hi))
  {
    BlankConcat(Body(body, lo, hi - 1), body[hi - 1]);
  }

  /** Once a block follows the heading, stripping no longer gives the bare heading: the
      test against the heading in the script never keeps a grown chunk from being cut. */
  lemma GrownChunkDiffers(heading: string, rest: string)
    requires (heading == "" || IsBlockText(heading)) && !Blank(rest)
    ensures Strip(heading + rest) != Strip(heading)
    ensures !Blank(heading + rest)
  {
    BlankConcat(heading, rest);
    StripBlank(heading + rest);
    if heading != "" {
      LStripConcat(heading, rest);
      LStripFacts(heading);
      assert !Blank(heading);
      SpacesEndIs(heading, 0, 0);
      assert LStrip(heading) == heading;
      RStripConcat(heading, rest);
      RStripFacts(heading);
      assert |Strip(heading)| <= |heading|;
      RStripFacts(rest);
      assert |RStrip(rest)| > 0;
    }
  }

  lemma FirstChunk(heading: string, body: seq<string>, maxChars: int, overlap: int, glue: string, lo: nat, hi: nat,
                   before: seq<string>, text: string)
    requires lo < hi <= |body| && PieceEnd(heading, body, maxChars, glue, lo, lo + 1) == hi
    requires text == ChunkText(heading, body, glue, lo, hi)
    ensures before + Chunks(heading, body, maxChars, overlap, glue, lo)
         == before + [text] + Chunks(heading, body, maxChars, overlap, Glue(heading, text, overlap), hi)
  {
    AppendFirst(before + Chunks(heading, body, maxChars, overlap, glue, lo), before, text,
                Chunks(heading, body, maxChars, overlap, Glue(heading, text, overlap), hi));
  }

  /** The loop's state before block `i`: the open chunk is `current`, of `glue` and the blocks from `lo`. */
  ghost predicate OpenChunk(heading: string, body: seq<string>, maxChars: int, overlap: int, chunks: seq<string>,
                            current: string, glue: string, lo: nat, i: nat)
    requires lo <= i <= |body|
  {
    && current == ChunkText(heading, body, glue, lo, i)
    && (lo < i ==> PieceEnd(heading, body, maxChars, glue, lo, lo + 1) == PieceEnd(heading, body, maxChars, glue, lo, i))
    && Chunks(heading, body, maxChars, overlap, "", 0) == chunks + Chunks(heading, body, maxChars, overlap, glue, lo)
  }

  lemma OpenAtStart(heading: string, body: seq<string>, maxChars: int, overlap: int)
    ensures OpenChunk(heading, body, maxChars, overlap, [], heading, "", 0, 0)
  {
    assert heading + "" + "" == heading;
  }

  lemma TakeBlock(heading: string, body: seq<string>, maxChars: int, overlap: int, chunks: seq<string>,
                  current: string, glue: string, lo: nat, i: nat)
    requires lo <= i < |body| && OpenChunk(heading, body, maxChars, overlap, chunks, current, glue, lo, i)
    requires lo < i ==> |current + body[i]| <= maxChars
    ensures OpenChunk(heading, body, maxChars, overlap, chunks, current + body[i], glue, lo, i + 1)
  {
    Assoc(heading + glue, Body(body, lo, i), body[i]);
    assert current + body[i] == ChunkText(heading, body, glue, lo, i + 1);
  }

  lemma CutBefore(heading: string, body: seq<string>, maxChars: int, overlap: int, chunks: seq<string>,
                  current: string, glue: string, lo: nat, i: nat)
    requires lo < i < |body| && OpenChunk(heading, body, maxChars, overlap, chunks, current, glue, lo, i)
    requires |current + body[i]| > maxChars
    ensures var glue' := Glue(heading, current, overlap);
            OpenChunk(heading, body, maxChars, overlap, chunks + [current], heading + glue', glue', i, i)
  {
    FirstChunk(heading, body, maxChars, overlap, glue, lo, i, chunks, current);
    var glue' := Glue(heading, current, overlap);
    assert heading + glue' + "" == heading + glue';
  }

  /** The loop of `split_section`; the open chunk holds `glue` and the blocks from `lo`. */
  method CutChunks(heading: string, body: seq<string>, maxChars: int, overlap: int) returns (chunks: seq<string>)
    requires heading == "" || IsBlockText(heading)
    requires body != [] && forall k :: 0 <= k < |body| ==> IsBlockText(body[k])
    ensures chunks == Chunks(heading, body, maxChars, overlap, "", 0)
  {
    chunks := [];
    var current := heading;
    ghost var glue, lo := "", 0;
    OpenAtStart(heading, body, maxChars, overlap);
    for i := 0 to |body|
      invariant lo <= i && (lo == i ==> i == 0)
      invariant i == 0 ==> current == heading
      invariant OpenChunk(heading, body, maxChars, overlap, chunks, current, glue, lo, i)
    {
      var block := body[i];
      if lo < i {
        OpenChunkShows(heading, body, glue, lo, i, current);
      }
      var tooLarge := |current + block| > maxChars && Strip(current) != Strip(heading);
      if tooLarge {
        CutBefore(heading, body, maxChars, overlap, chunks, current, glue, lo, i);
        glue, lo := Glue(heading, current, overlap), i;
        chunks := chunks + [current];
        var tail := Tail(current, overlap);
        current := heading + (if tail != "" && !Contains(heading, tail) then tail + "\n" else "");
      }
      TakeBlock(heading, body, maxChars, overlap, chunks, current, glue, lo, i);
      current := current + block;
    }
    OpenChunkShows(heading, body, glue, lo, |body|, current);
    StripBlank(current);
    LastChunk(heading, body, maxChars, overlap, chunks, current, glue, lo);
    chunks := chunks + (if Strip(current) != "" then [current] else []);
  }

  lemma LastChunk(heading: string, body: seq<string>, maxChars: int, overlap: int, chunks: seq<string>,
                  current: string, glue: string, lo: nat)
    requires lo < |body| && OpenChunk(heading, body, maxChars, overlap, chunks, current, glue, lo, |body|)
    ensures Chunks(heading, body, maxChars, overlap, "", 0) == chunks + [current]
  {
    FirstChunk(heading, body, maxChars, overlap, glue, lo, |body|, chunks, current);
  }

  lemma OpenChunkShows(heading: string, body: seq<string>, glue: string, lo: nat, i: nat, current: string)
    requires heading == "" || IsBlockText(heading)
    requires lo < i <= |body| && forall k :: 0 <= k < |body| ==> IsBlockText(body[k])
    requires current == ChunkText(heading, body, glue, lo, i)
    ensures Strip(current) != Strip(heading) && !Blank(current)
  {
    BodyShows(body, lo, i);
    BlankConcat(glue, Body(body, lo, i));
    GrownChunkDiffers(heading, glue + Body(body, lo, i));
    Assoc(heading, glue, Body(body, lo, i));
  }

  /** `split_section` */
  method Split(sectionText: string, maxChars: int, overlap: int) returns (chunks: seq<string>)
    ensures chunks == SplitSection(sectionText, maxChars, overlap)
  {
    var blocks := ReadBlocks(sectionText);
    if blocks == [] {
      return [];
    }
    var heading := if IsHeading(blocks[0]) then blocks[0] else "";
    var body := if heading != "" then blocks[1..] else blocks;
    if body == [] {
      return [sectionText];
    }
    SectionBlocksShow(sectionText);
    chunks := CutChunks(heading, body, maxChars, overlap);
  }
}
