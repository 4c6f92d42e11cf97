/** From the lines of a document to what retrieval offers of it, over any history. */
module EndToEnd {
  import opened Basics
  import opened Text
  import opened Markdown
  import opened Blocks
  import opened Spans
  import opened Pairs
  import opened Fences
  import opened Index
  import opened History
  import opened Agreement

  /** Lines `a` to `b` are a closed fenced block of the section that starts `span`, whose first
      line keeps its meaning when the section is stripped. */
  ghost predicate IsFencedIn(text: string, a: nat, b: nat, span: Span) {
    var lines := SplitLines(text);
    && FencedRun(lines, a, b)
    && span in SectionSpans(lines)
    && span.lo <= a < span.hi <= |lines|
    && KeepsFence(lines[FirstRead(lines, span.lo, span.hi)])
  }

  /** The heading and the text hold the block. */
  ghost predicate HoldsBlock(text: string, a: nat, b: nat, span: Span, heading: string, passage: string)
    requires IsFencedIn(text, a, b, span)
  {
    heading == SectionTitle(SplitLines(text), span.lo) && Contains(passage, RunText(SplitLines(text), a, b))
  }

  lemma BlockInSplit(cfg: Settings, text: string, a: nat, b: nat, span: Span) returns (i: nat)
    requires StructureAware(cfg) && IsFencedIn(text, a, b, span)
    ensures i < |cfg.split(text)|
    ensures HoldsBlock(text, a, b, span, cfg.split(text)[i].heading, cfg.split(text)[i].text)
  {
    var spans := SectionSpans(SplitLines(text));
    var k :| 0 <= k < |spans| && spans[k] == span;
    FencedCodeIsIndexed(text, cfg.chunkSize, cfg.overlap, a, b, k);
    var pairs := cfg.split(text);
    assert pairs == SectionPairs(text, cfg.chunkSize, cfg.overlap);
    i :| 0 <= i < |pairs| && HoldsBlock(text, a, b, span, pairs[i].heading, pairs[i].text);
  }

  lemma {:induction false} PassageAt(cfg: Settings, chunks: seq<Chunk>, n: nat, i: nat)
    requires i < n <= |chunks|
    ensures PassagesOf(cfg, chunks, n)[i] == PassageOf(cfg, chunks[i])
  {
    if i < n - 1 {
      PassageAt(cfg, chunks, n - 1, i);
    }
  }

  /** After any history, a closed fenced block of a current document is offered whole by one passage,
      under the heading of its section, if the first line of that section keeps its meaning. */
  lemma FencedCodeIsOffered(cfg: Settings, corpus: seq<File>, steps: seq<Step>, f: File, a: nat, b: nat, span: Span)
    requires StructureAware(cfg) && IsRun(corpus, steps) && f in CorpusAfter(corpus, steps, |steps|)
    requires IsFencedIn(f.text, a, b, span)
    ensures exists i :: 0 <= i < |Offered(cfg, Run(cfg, corpus, steps, |steps|), f.path)|
                        && HoldsBlock(f.text, a, b, span, Offered(cfg, Run(cfg, corpus, steps, |steps|), f.path)[i].heading,
                                      Offered(cfg, Run(cfg, corpus, steps, |steps|), f.path)[i].text)
  {
    var now, data := CorpusAfter(corpus, steps, |steps|), Run(cfg, corpus, steps, |steps|);
    var k :| 0 <= k < |now| && now[k] == f;
    RunKeepsIndex(cfg, corpus, steps, |steps|);
    OfferedOfFile(cfg, now, data, k);
    var chunks := DocChunks(cfg, f, 1, 1);
    var i := BlockInSplit(cfg, f.text, a, b, span);
    DocChunkAt(cfg, f, 1, 1, i);
    PassageAt(cfg, chunks, |chunks|, i);
  }
}
