/** `section_blocks`: paragraphs and fenced code of one section, as runs of lines. */
module Blocks {
  import opened Text
  import opened Spans
  import opened Markdown

  /** A blank line outside fences: never kept, and the end of any open block. */
  predicate Separator(lines: seq<string>, i: nat)
    requires i < |lines|
  {
    !InFence(lines, i + 1) && !IsFence(lines[i]) && Blank(lines[i])
  }

  /** A line that closes a fence: the last line of its block. */
  predicate ClosesFence(lines: seq<string>, i: nat)
    requires i < |lines|
  {
    IsFence(lines[i]) && !InFence(lines, i + 1)
  }

  /** Where a block that is open at line `i` ends. */
  function BlockEnd(lines: seq<string>, i: nat): (k: nat)
    requires i <= |lines|
    ensures i <= k <= |lines|
    ensures i < |lines| && !Separator(lines, i) ==> i < k
    decreases |lines| - i
  {
    if i == |lines| || Separator(lines, i) then i
    else if ClosesFence(lines, i) then i + 1
    else BlockEnd(lines, i + 1)
  }

  function BlockSpans(lines: seq<string>, lo: nat): (spans: seq<Span>)
    requires lo <= |lines|
    decreases |lines| - lo
  {
    if lo == |lines| then []
    else if Separator(lines, lo) then BlockSpans(lines, lo + 1)
    else [Span(lo, BlockEnd(lines, lo))] + BlockSpans(lines, BlockEnd(lines, lo))
  }

  /** `"\n".join(current).strip() + "\n"`, the text of a block as of a section. */
  function BlocksFrom(lines: seq<string>, lo: nat): (blocks: seq<string>)
    requires lo <= |lines|
    decreases |lines| - lo
  {
    if lo == |lines| then []
    else if Separator(lines, lo) then BlocksFrom(lines, lo + 1)
    else [SectionText(lines[lo..BlockEnd(lines, lo)])] + BlocksFrom(lines, BlockEnd(lines, lo))
  }

  function SectionBlocks(sectionText: string): seq<string> {
    BlocksFrom(SplitLines(sectionText), 0)
  }

  datatype Kind = Separates | Closes | Keeps

  function KindsTo(lines: seq<string>, n: nat): (kinds: seq<Kind>)
    requires n <= |lines|
    ensures |kinds| == n
  {
    if n == 0 then []
    else
      KindsTo(lines, n - 1)
      + [if Separator(lines, n - 1) then Separates else if ClosesFence(lines, n - 1) then Closes else Keeps]
  }

  lemma {:induction false} KindAt(lines: seq<string>, n: nat, i: nat)
    requires i < n <= |lines|
    ensures KindsTo(lines, n)[i] == Separates <==> Separator(lines, i)
    ensures KindsTo(lines, n)[i] == Closes <==> ClosesFence(lines, i)
  {
    if i < n - 1 {
      KindAt(lines, n - 1, i);
    }
  }

  /** The declarative reading: blocks are disjoint runs of lines in order; exactly the
      separators are left out; a block goes on until a separator, a closing fence or the end. */
  ghost predicate IsBlocking(kinds: seq<Kind>, lo: nat, spans: seq<Span>)
    requires lo <= |kinds|
  {
    && (forall k :: 0 <= k < |spans| ==> lo <= spans[k].lo < spans[k].hi <= |kinds|)
    && (forall j, k :: 0 <= j < k < |spans| ==> spans[j].hi <= spans[k].lo)
    && (forall i :: lo <= i < |kinds| ==> (kinds[i] == Separates <==> !Covered(spans, i)))
    && (forall k, i :: 0 <= k < |spans| && spans[k].lo <= i < spans[k].hi - 1 ==> kinds[i] != Closes)
    && (forall k :: 0 <= k < |spans| ==> EndsBlock(kinds, spans[k].hi))
  }

  predicate EndsBlock(kinds: seq<Kind>, hi: nat) {
    0 < hi < |kinds| ==> kinds[hi - 1] == Closes || kinds[hi] == Separates
  }

  ghost predicate Covered(spans: seq<Span>, i: int) {
    exists k :: 0 <= k < |spans| && spans[k].lo <= i < spans[k].hi
  }

  lemma {:induction false} BlockEndFacts(lines: seq<string>, i: nat)
    requires i <= |lines|
    ensures var k, kinds := BlockEnd(lines, i), KindsTo(lines, |lines|);
            && (forall j :: i <= j < k ==> kinds[j] != Separates)
            && (forall j :: i <= j < k - 1 ==> kinds[j] != Closes)
            && (i < k ==> EndsBlock(kinds, k))
    decreases |lines| - i
  {
    if i < |lines| {
      KindAt(lines, |lines|, i);
      if !Separator(lines, i) && !ClosesFence(lines, i) {
        BlockEndFacts(lines, i + 1);
        var k := BlockEnd(lines, i + 1);
        if k == i + 1 < |lines| {
          KindAt(lines, |lines|, i + 1);
        }
      }
    }
  }

  lemma {:induction false} BlocksAreABlocking(lines: seq<string>, lo: nat)
    requires lo <= |lines|
    ensures IsBlocking(KindsTo(lines, |lines|), lo, BlockSpans(lines, lo))
    decreases |lines| - lo
  {
    if lo < |lines| {
      var kinds := KindsTo(lines, |lines|);
      KindAt(lines, |lines|, lo);
      if Separator(lines, lo) {
        BlocksAreABlocking(lines, lo + 1);
        SkipSeparator(kinds, lo, BlockSpans(lines, lo));
      } else {
        var hi := BlockEnd(lines, lo);
        BlockEndFacts(lines, lo);
        BlocksAreABlocking(lines, hi);
        PrependBlock(kinds, lo, hi, BlockSpans(lines, hi), BlockSpans(lines, lo));
      }
    }
  }

  lemma SkipSeparator(kinds: seq<Kind>, lo: nat, spans: seq<Span>)
    requires lo < |kinds| && kinds[lo] == Separates && IsBlocking(kinds, lo + 1, spans)
    ensures IsBlocking(kinds, lo, spans)
  {
  }

  lemma PrependBlock(kinds: seq<Kind>, lo: nat, hi: nat, rest: seq<Span>, spans: seq<Span>)
    requires lo < hi <= |kinds| && IsBlocking(kinds, hi, rest) && spans == [Span(lo, hi)] + rest
    requires forall j :: lo <= j < hi ==> kinds[j] != Separates
    requires forall j :: lo <= j < hi - 1 ==> kinds[j] != Closes
    requires EndsBlock(kinds, hi)
    ensures IsBlocking(kinds, lo, spans)
  {
    assert forall k :: 0 < k < |spans| ==> spans[k] == rest[k - 1];
    forall i | lo <= i < |kinds| ensures kinds[i] == Separates <==> !Covered(spans, i) {
      if i < hi {
        assert spans[0].lo <= i < spans[0].hi;
      } else if Covered(rest, i) {
        var k :| 0 <= k < |rest| && rest[k].lo <= i < rest[k].hi;
        assert spans[k + 1] == rest[k];
      }
    }
  }

  /** No other runs of lines do this. */
  lemma {:induction false} BlockingUnique(kinds: seq<Kind>, lo: nat, s: seq<Span>, t: seq<Span>)
    requires lo <= |kinds| && IsBlocking(kinds, lo, s) && IsBlocking(kinds, lo, t)
    ensures s == t
    decreases |s|
  {
    if s != [] {
      FirstSpanNotAfter(kinds, lo, s, t);
      FirstSpanNotAfter(kinds, lo, t, s);
      DropFirst(kinds, lo, s);
      DropFirst(kinds, lo, t);
      BlockingUnique(kinds, s[0].hi, s[1..], t[1..]);
    } else if t != [] {
      FirstSpanNotAfter(kinds, lo, t, s);
    }
  }

  lemma FirstSpanNotAfter(kinds: seq<Kind>, lo: nat, s: seq<Span>, t: seq<Span>)
    requires lo <= |kinds| && IsBlocking(kinds, lo, s) && IsBlocking(kinds, lo, t) && s != []
    ensures t != [] && t[0].lo <= s[0].lo && (t[0].lo == s[0].lo ==> t[0].hi >= s[0].hi)
  {
    var i := s[0].lo;
    assert Covered(s, i);
    assert Covered(t, i);
    assert EndsBlock(kinds, t[0].hi);
    assert t[0].lo <= i;
    assert s[0].hi <= |kinds|;
    assert Covered(s, t[0].hi) || t[0].hi < i || t[0].hi >= s[0].hi;
  }

  lemma DropFirst(kinds: seq<Kind>, lo: nat, s: seq<Span>)
    requires lo <= |kinds| && IsBlocking(kinds, lo, s) && s != []
    ensures IsBlocking(kinds, s[0].hi, s[1..])
  {
    var rest := s[1..];
    assert forall k :: 0 <= k < |rest| ==> rest[k] == s[k + 1];
    forall i | s[0].hi <= i < |kinds| ensures kinds[i] == Separates <==> !Covered(rest, i) {
      if Covered(s, i) {
        var k :| 0 <= k < |s| && s[k].lo <= i < s[k].hi;
        assert rest[k - 1] == s[k];
      }
    }
  }

  /** Block `k` is the text of span `k`. */
  ghost predicate AreTexts(lines: seq<string>, spans: seq<Span>, blocks: seq<string>) {
    && |blocks| == |spans|
    && (forall k :: 0 <= k < |spans| ==> spans[k].lo < spans[k].hi <= |lines|)
    && (forall k :: 0 <= k < |spans| ==> blocks[k] == SectionText(lines[spans[k].lo..spans[k].hi]))
  }

  lemma PrependText(lines: seq<string>, span: Span, block: string, spans: seq<Span>, blocks: seq<string>)
    requires AreTexts(lines, spans, blocks) && span.lo < span.hi <= |lines| && block == SectionText(lines[span.lo..span.hi])
    ensures AreTexts(lines, [span] + spans, [block] + blocks)
  {
  }

  lemma {:induction false} BlocksRenderSpans(lines: seq<string>, lo: nat)
    requires lo <= |lines|
    ensures AreTexts(lines, BlockSpans(lines, lo), BlocksFrom(lines, lo))
    decreases |lines| - lo
  {
    if lo < |lines| {
      if Separator(lines, lo) {
        BlocksRenderSpans(lines, lo + 1);
      } else {
        var hi := BlockEnd(lines, lo);
        BlocksRenderSpans(lines, hi);
        PrependText(lines, Span(lo, hi), SectionText(lines[lo..hi]), BlockSpans(lines, hi), BlocksFrom(lines, hi));
      }
    }
  }

  /** The blocks of a section are the texts of its line runs, and the runs are the only blocking. */
  lemma BlocksAreTheBlocking(sectionText: string, spans: seq<Span>)
    ensures var lines := SplitLines(sectionText);
            && |SectionBlocks(sectionText)| == |BlockSpans(lines, 0)|
            && (forall k :: 0 <= k < |BlockSpans(lines, 0)| ==>
                  && BlockSpans(lines, 0)[k].lo < BlockSpans(lines, 0)[k].hi <= |lines|
                  && SectionBlocks(sectionText)[k] == SectionText(lines[BlockSpans(lines, 0)[k].lo..BlockSpans(lines, 0)[k].hi]))
            && (IsBlocking(KindsTo(lines, |lines|), 0, spans) <==> spans == BlockSpans(lines, 0))
  {
    var lines := SplitLines(sectionText);
    BlocksRenderSpans(lines, 0);
    BlocksAreABlocking(lines, 0);
    if IsBlocking(KindsTo(lines, |lines|), 0, spans) {
      BlockingUnique(KindsTo(lines, |lines|), 0, spans, BlockSpans(lines, 0));
    }
  }

  // ----- fenced code -----

  /** No line strictly between `a` and `b` is a fence. */
  predicate NoFenceBetween(lines: seq<string>, a: nat, b: nat)
    requires b <= |lines|
  {
    b <= a + 1 || (NoFenceBetween(lines, a, b - 1) && !IsFence(lines[b - 1]))
  }

  /** Lines `a` to `b` are a closed fenced block: an opening fence, no other fence, a closing fence. */
  predicate FencedRun(lines: seq<string>, a: nat, b: nat) {
    && a < b < |lines|
    && IsFence(lines[a]) && !InFence(lines, a)
    && IsFence(lines[b])
    && NoFenceBetween(lines, a, b)
  }

  lemma {:induction false} InsideRun(lines: seq<string>, a: nat, b: nat, i: nat)
    requires FencedRun(lines, a, b) && a < i <= b
    ensures InFence(lines, i)
  {
    if i > a + 1 {
      InsideRun(lines, a, b, i - 1);
      NoFenceAt(lines, a, b, i - 1);
    }
  }

  lemma {:induction false} NoFenceAt(lines: seq<string>, a: nat, b: nat, j: nat)
    requires b <= |lines| && NoFenceBetween(lines, a, b) && a < j < b
    ensures !IsFence(lines[j])
  {
    if j < b - 1 {
      NoFenceAt(lines, a, b - 1, j);
    }
  }

  lemma {:induction false} RunKeepsBlockOpen(lines: seq<string>, a: nat, b: nat, i: nat)
    requires FencedRun(lines, a, b) && i <= b
    requires BlockEnd(lines, i) > a
    ensures BlockEnd(lines, i) == b + 1
    decreases b - i
  {
    if a <= i < b {
      InsideRun(lines, a, b, i + 1);
      RunKeepsBlockOpen(lines, a, b, i + 1);
    } else if i == b {
      InsideRun(lines, a, b, b);
    } else {
      assert BlockEnd(lines, i) == BlockEnd(lines, i + 1);
      RunKeepsBlockOpen(lines, a, b, i + 1);
    }
  }

  /** Every closed fenced block lies in a single block, which it ends. */
  lemma {:induction false} RunInOneBlock(lines: seq<string>, a: nat, b: nat, lo: nat) returns (k: nat)
    requires FencedRun(lines, a, b) && lo <= a
    ensures k < |BlockSpans(lines, lo)|
    ensures BlockSpans(lines, lo)[k].lo <= a && BlockSpans(lines, lo)[k].hi == b + 1
    decreases |lines| - lo
  {
    if Separator(lines, lo) {
      k := RunInOneBlock(lines, a, b, lo + 1);
    } else if BlockEnd(lines, lo) <= a {
      k := RunInOneBlock(lines, a, b, BlockEnd(lines, lo));
      k := k + 1;
    } else {
      RunKeepsBlockOpen(lines, a, b, lo);
      k := 0;
    }
  }

  // ----- every block shows something -----

  /** A block's text is one line feed after visible text. */
  predicate IsBlockText(s: string) {
    |s| >= 2 && s[|s| - 1] == '\n' && !IsSpace(s[0]) && !IsSpace(s[|s| - 2])
  }

  lemma StrippedIsBlockText(s: string)
    requires !Blank(s)
    ensures IsBlockText(Strip(s) + "\n")
  {
    LStripFacts(s);
    RStripFacts(LStrip(s));
    StripBlank(s);
    var t := Strip(s);
    assert t == LStrip(s)[..|t|];
  }

  lemma {:induction false} EndedOutsideFence(lines: seq<string>, i: nat)
    requires i < |lines| && !Separator(lines, i)
    ensures BlockEnd(lines, i) < |lines| ==> !InFence(lines, BlockEnd(lines, i))
    decreases |lines| - i
  {
    if !ClosesFence(lines, i) && i + 1 < |lines| && !Separator(lines, i + 1) {
      EndedOutsideFence(lines, i + 1);
    }
  }

  lemma {:induction false} BlocksShow(lines: seq<string>, lo: nat)
    requires lo <= |lines| && !InFence(lines, lo)
    ensures forall k :: 0 <= k < |BlocksFrom(lines, lo)| ==> IsBlockText(BlocksFrom(lines, lo)[k])
    decreases |lines| - lo
  {
    if lo < |lines| {
      if Separator(lines, lo) {
        BlocksShow(lines, lo + 1);
      } else {
        var hi := BlockEnd(lines, lo);
        assert !Blank(lines[lo]) by {
          if IsFence(lines[lo]) {
            CharFacts();
            assert !IsSpace(lines[lo][0]);
          }
        }
        var group := lines[lo..hi];
        assert group[0] == lines[lo];
        JoinBlank(group);
        StrippedIsBlockText(Join(group));
        EndedOutsideFence(lines, lo);
        if hi < |lines| {
          BlocksShow(lines, hi);
        }
      }
    }
  }

  lemma SectionBlocksShow(sectionText: string)
    ensures forall k :: 0 <= k < |SectionBlocks(sectionText)| ==> IsBlockText(SectionBlocks(sectionText)[k])
  {
    BlocksShow(SplitLines(sectionText), 0);
  }

  // ----- the loop -----

  lemma ClosedBlock(total: seq<string>, lines: seq<string>, lo: nat, hi: nat, current: seq<string>, before: seq<string>)
    requires lo < hi <= |lines| && BlockEnd(lines, lo) == hi && !Separator(lines, lo)
    requires total == before + BlocksFrom(lines, lo) && current == lines[lo..hi]
    ensures total == before + [SectionText(current)] + BlocksFrom(lines, hi)
  {
    AppendFirst(total, before, SectionText(current), BlocksFrom(lines, hi));
  }

  /** What holds before line `i` is read: the lines from `lo` on are the open block. */
  ghost predicate Packing(total: seq<string>, lines: seq<string>, i: nat, lo: nat, inFence: bool, current: seq<string>,
                          blocks: seq<string>) {
    && lo <= i <= |lines| && inFence == InFence(lines, i) && current == lines[lo..i]
    && (lo < i ==> !Separator(lines, lo) && BlockEnd(lines, lo) == BlockEnd(lines, i))
    && total == blocks + BlocksFrom(lines, lo)
  }

  lemma BlockGoesOn(total: seq<string>, lines: seq<string>, i: nat, lo: nat, inFence: bool, current: seq<string>, blocks: seq<string>)
    requires i < |lines| && Packing(total, lines, i, lo, inFence, current, blocks)
    requires !ClosesFence(lines, i) && !Separator(lines, i)
    ensures Packing(total, lines, i + 1, lo, InFence(lines, i + 1), current + [lines[i]], blocks)
  {
    SliceSnoc(lines, lo, i);
  }

  lemma BlockCloses(total: seq<string>, lines: seq<string>, i: nat, lo: nat, inFence: bool, current: seq<string>, blocks: seq<string>)
    requires i < |lines| && Packing(total, lines, i, lo, inFence, current, blocks) && ClosesFence(lines, i)
    ensures Packing(total, lines, i + 1, i + 1, InFence(lines, i + 1), [], blocks + [SectionText(current + [lines[i]])])
  {
    SliceSnoc(lines, lo, i);
    assert BlockEnd(lines, i) == i + 1;
    ClosedBlock(total, lines, lo, i + 1, current + [lines[i]], blocks);
  }

  lemma BlockBreaks(total: seq<string>, lines: seq<string>, i: nat, lo: nat, inFence: bool, current: seq<string>, blocks: seq<string>)
    requires i < |lines| && Packing(total, lines, i, lo, inFence, current, blocks) && Separator(lines, i)
    ensures Packing(total, lines, i + 1, i + 1, InFence(lines, i + 1), [],
                    if current == [] then blocks else blocks + [SectionText(current)])
  {
    assert BlocksFrom(lines, i) == BlocksFrom(lines, i + 1);
    if current != [] {
      assert BlockEnd(lines, i) == i;
      ClosedBlock(total, lines, lo, i, current, blocks);
    }
  }

  /** How line `i` changes the open block and the blocks. */
  lemma StepBlock(total: seq<string>, lines: seq<string>, i: nat, lo: nat, inFence: bool, current: seq<string>, blocks: seq<string>,
                  lo': nat, inFence': bool, current': seq<string>, blocks': seq<string>)
    requires i < |lines| && Packing(total, lines, i, lo, inFence, current, blocks)
    requires inFence' == if IsFence(lines[i]) then !inFence else inFence
    requires if IsFence(lines[i]) && !inFence' then
               lo' == i + 1 && current' == [] && blocks' == blocks + [SectionText(current + [lines[i]])]
             else if !IsFence(lines[i]) && !inFence' && Blank(lines[i]) then
               lo' == i + 1 && current' == [] && blocks' == (if current == [] then blocks else blocks + [SectionText(current)])
             else lo' == lo && current' == current + [lines[i]] && blocks' == blocks
    ensures Packing(total, lines, i + 1, lo', inFence', current', blocks')
  {
    if ClosesFence(lines, i) {
      BlockCloses(total, lines, i, lo, inFence, current, blocks);
    } else if Separator(lines, i) {
      BlockBreaks(total, lines, i, lo, inFence, current, blocks);
    } else {
      BlockGoesOn(total, lines, i, lo, inFence, current, blocks);
    }
  }

  lemma LastBlock(total: seq<string>, lines: seq<string>, lo: nat, inFence: bool, current: seq<string>, blocks: seq<string>)
    requires Packing(total, lines, |lines|, lo, inFence, current, blocks)
    ensures total == if current == [] then blocks else blocks + [SectionText(current)]
  {
    assert BlocksFrom(lines, |lines|) == [];
    if current != [] {
      ClosedBlock(total, lines, lo, |lines|, current, blocks);
    }
  }

  /** `flush_block`, whose returned empty list becomes `current`. */
  method FlushBlock(blocks: seq<string>, current: seq<string>) returns (flushed: seq<string>)
    ensures flushed == blocks + [SectionText(current)]
  {
    flushed := blocks + [Strip(Join(current)) + "\n"];
  }

  /** The loop of `section_blocks`; `lo` is where the open block starts. */
  method CutBlocks(lines: seq<string>) returns (blocks: seq<string>)
    ensures blocks == BlocksFrom(lines, 0)
  {
    blocks := [];
    var current: seq<string> := [];
    var inFence := false;
    ghost var lo, total := 0, BlocksFrom(lines, 0);
    for i := 0 to |lines|
      invariant Packing(total, lines, i, lo, inFence, current, blocks)
    {
      ghost var was, before, open, closed := lo, inFence, current, blocks;
      var line := lines[i];
      var fence := IsFence(line);
      inFence := if fence then !inFence else inFence;
      var blank := Strip(line) == "";
      StripBlank(line);
      if inFence || fence || !blank {
        current := current + [line];
      }
      if fence && !inFence {
        blocks := FlushBlock(blocks, current);
        current := [];
        lo := i + 1;
      }
      if !inFence && !fence && blank {
        if current != [] {
          blocks := FlushBlock(blocks, current);
          current := [];
        }
        lo := i + 1;
      }
      StepBlock(total, lines, i, was, before, open, closed, lo, inFence, current, blocks);
    }
    LastBlock(total, lines, lo, inFence, current, blocks);
    if current != [] {
      blocks := FlushBlock(blocks, current);
    }
  }

  /** `section_blocks` */
  method ReadBlocks(sectionText: string) returns (blocks: seq<string>)
    ensures blocks == SectionBlocks(sectionText)
  {
    blocks := CutBlocks(SplitLines(sectionText));
  }
}
