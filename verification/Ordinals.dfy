/** The ordinals of chunks: when they are unique, and a history after which they are not. */
module Ordinals {
  import opened Index
  import opened Freshness
  import opened History
  import opened Samples

  ghost predicate DistinctOrdinals(chunks: seq<Chunk>) {
    forall i, j :: 0 <= i < j < |chunks| ==> chunks[i].ordinal != chunks[j].ordinal
  }

  /** From position `n` on chunks are numbered by their place, counted from one. */
  ghost predicate NumberedFrom(chunks: seq<Chunk>, n: nat) {
    forall i :: n <= i < |chunks| ==> chunks[i].ordinal == i + 1
  }

  /** `after` continues `before`, numbering what it adds by place. */
  ghost predicate Continues(before: seq<Chunk>, after: seq<Chunk>) {
    before <= after && |before| <= |after| && NumberedFrom(after, |before|)
  }

  lemma AddFileNumbers(cfg: Settings, before: Lists, f: File, version: nat)
    ensures Continues(before.chunks, AddFile(cfg, before, f, version).chunks)
  {
    var n, more := |before.chunks|, DocChunks(cfg, f, |before.chunks| + 1, version);
    var after := before.chunks + more;
    forall i | n <= i < |after| ensures after[i].ordinal == i + 1 {
      DocChunkAt(cfg, f, n + 1, version, i - n);
    }
  }

  lemma ContinuesOn(a: seq<Chunk>, b: seq<Chunk>, c: seq<Chunk>)
    requires Continues(a, b) && Continues(b, c)
    ensures Continues(a, c)
  {
    forall i | |a| <= i < |c| ensures c[i].ordinal == i + 1 {
      if i < |b| {
        assert c[i] == b[i];
      }
    }
  }

  lemma {:induction false} AddFilesNumber(cfg: Settings, base: Lists, files: seq<File>, latest: map<string, Latest>, n: nat)
    requires n <= |files|
    ensures Continues(base.chunks, AddFiles(cfg, base, files, latest, n).chunks)
  {
    if n > 0 {
      var before := AddFiles(cfg, base, files, latest, n - 1);
      var version := NextVersion(latest, files[n - 1].path);
      AddFilesNumber(cfg, base, files, latest, n - 1);
      AddFileNumbers(cfg, before, files[n - 1], version);
      ContinuesOn(base.chunks, before.chunks, AddFile(cfg, before, files[n - 1], version).chunks);
    }
  }

  lemma IncrementalContinues(cfg: Settings, previous: IndexData, corpus: seq<File>, forced: set<string>)
    ensures Continues(Carried(previous, corpus, forced).chunks, Incremental(cfg, previous, corpus, forced).chunks)
  {
    var base, files := Carried(previous, corpus, forced), ChangedFiles(previous, corpus, forced);
    var lists := Versioned(cfg, previous, corpus, forced);
    AddFilesNumber(cfg, base, files, PreviousLatest(previous), |files|);
    if previous.docs == [] {
      var others := Others(corpus, ChangedPaths(previous, corpus, forced), |corpus|);
      AddFilesNumber(cfg, lists, others, map[], |others|);
      ContinuesOn(base.chunks, lists.chunks, AddFiles(cfg, lists, others, map[], |others|).chunks);
    }
  }

  /** No kept ordinal is one that the chunks added behind are numbered with. */
  ghost predicate NoneTaken(kept: seq<Chunk>, total: nat) {
    forall i :: 0 <= i < |kept| ==> !(|kept| < kept[i].ordinal <= total)
  }

  lemma Numbered(kept: seq<Chunk>, all: seq<Chunk>, i: nat)
    requires Continues(kept, all) && i < |kept|
    ensures all[i] == kept[i]
    ensures |kept| < kept[i].ordinal <= |all| ==> all[kept[i].ordinal - 1].ordinal == kept[i].ordinal
  {
  }

  lemma DistinctIff(kept: seq<Chunk>, all: seq<Chunk>)
    requires Continues(kept, all)
    ensures DistinctOrdinals(all) <==> DistinctOrdinals(kept) && NoneTaken(kept, |all|)
  {
    assert forall i :: 0 <= i < |kept| ==> all[i] == kept[i];
    forall i | 0 <= i < |kept| && DistinctOrdinals(all) ensures !(|kept| < kept[i].ordinal <= |all|) {
      Numbered(kept, all, i);
    }
  }

  /** Whatever the previous index, the ordinals of an incremental build are distinct exactly when
      those of the carried chunks are and none of them lies above the number of carried chunks and
      up to the number of all chunks. */
  lemma OrdinalsDistinctIff(cfg: Settings, previous: IndexData, corpus: seq<File>, forced: set<string>)
    ensures var kept, all := Carried(previous, corpus, forced).chunks, Incremental(cfg, previous, corpus, forced).chunks;
            DistinctOrdinals(all) <==> DistinctOrdinals(kept) && NoneTaken(kept, |all|)
  {
    IncrementalContinues(cfg, previous, corpus, forced);
    DistinctIff(Carried(previous, corpus, forced).chunks, Incremental(cfg, previous, corpus, forced).chunks);
  }

  // ----- histories that drop nothing -----

  /** Every document with a chunk is still in the corpus. */
  ghost predicate DropsNothing(previous: IndexData, corpus: seq<File>) {
    AllIn(previous.chunks, Paths(corpus, |corpus|))
  }

  ghost predicate AllIn(chunks: seq<Chunk>, paths: set<string>) {
    forall i :: 0 <= i < |chunks| ==> chunks[i].docId in paths
  }

  lemma {:induction false} AllKept(chunks: seq<Chunk>, paths: set<string>, changed: set<string>, n: nat, i: nat)
    requires n <= |chunks| && AllIn(chunks, paths)
    ensures |KeptChunks(chunks, paths, changed, n)| == n
    ensures i < n ==> KeptChunks(chunks, paths, changed, n)[i].ordinal == chunks[i].ordinal
  {
    if n > 0 {
      AllKept(chunks, paths, changed, n - 1, i);
    }
  }

  lemma StepStaysNumbered(cfg: Settings, previous: IndexData, corpus: seq<File>, forced: set<string>)
    requires NumberedFrom(previous.chunks, 0) && DropsNothing(previous, corpus)
    ensures NumberedFrom(Incremental(cfg, previous, corpus, forced).chunks, 0)
  {
    var kept, all := Carried(previous, corpus, forced).chunks, Incremental(cfg, previous, corpus, forced).chunks;
    var paths, changed := Paths(corpus, |corpus|), ChangedPaths(previous, corpus, forced);
    IncrementalContinues(cfg, previous, corpus, forced);
    forall i | 0 <= i < |all| ensures all[i].ordinal == i + 1 {
      AllKept(previous.chunks, paths, changed, |previous.chunks|, i);
      if i < |kept| {
        assert all[i] == kept[i];
      }
    }
  }

  /** Step `k` drops no document with passages. */
  ghost predicate StepDropsNothing(cfg: Settings, corpus: seq<File>, steps: seq<Step>, k: nat)
    requires k < |steps|
  {
    DropsNothing(Run(cfg, corpus, steps, k), steps[k].corpus)
  }

  ghost predicate NeverDrops(cfg: Settings, corpus: seq<File>, steps: seq<Step>, n: nat)
    requires n <= |steps|
  {
    forall k :: 0 <= k < n ==> StepDropsNothing(cfg, corpus, steps, k)
  }

  lemma BuildIsNumbered(cfg: Settings, corpus: seq<File>)
    ensures NumberedFrom(FullBuild(cfg, corpus).chunks, 0)
  {
    AddFilesNumber(cfg, Lists([], []), corpus, map[], |corpus|);
  }

  lemma NumberedIsDistinct(chunks: seq<Chunk>)
    requires NumberedFrom(chunks, 0)
    ensures DistinctOrdinals(chunks)
  {
  }

  /** The index after `n` steps, as a plain function, which the solver need not unroll. */
  function IndexAfter(cfg: Settings, corpus: seq<File>, steps: seq<Step>, n: nat): IndexData
    requires n <= |steps|
  {
    Run(cfg, corpus, steps, n)
  }

  lemma StartNumbered(cfg: Settings, corpus: seq<File>, steps: seq<Step>)
    ensures NumberedFrom(IndexAfter(cfg, corpus, steps, 0).chunks, 0)
  {
    BuildIsNumbered(cfg, corpus);
  }

  lemma NextNumbered(cfg: Settings, corpus: seq<File>, steps: seq<Step>, n: nat)
    requires 0 < n <= |steps| && NeverDrops(cfg, corpus, steps, n) && NumberedFrom(IndexAfter(cfg, corpus, steps, n - 1).chunks, 0)
    ensures NumberedFrom(IndexAfter(cfg, corpus, steps, n).chunks, 0)
  {
    assert StepDropsNothing(cfg, corpus, steps, n - 1);
    StepStaysNumbered(cfg, Run(cfg, corpus, steps, n - 1), steps[n - 1].corpus, steps[n - 1].forced);
  }

  lemma {:induction false} RunStaysNumbered(cfg: Settings, corpus: seq<File>, steps: seq<Step>, n: nat)
    requires n <= |steps| && NeverDrops(cfg, corpus, steps, n)
    ensures NumberedFrom(IndexAfter(cfg, corpus, steps, n).chunks, 0)
  {
    if n == 0 {
      StartNumbered(cfg, corpus, steps);
    } else {
      RunStaysNumbered(cfg, corpus, steps, n - 1);
      NextNumbered(cfg, corpus, steps, n);
    }
  }

  /** As long as no document with passages is dropped, chunk `i` has ordinal `i + 1`, whatever is
      edited, added or forced; in particular no two chunks share an ordinal. */
  lemma RunIsNumbered(cfg: Settings, corpus: seq<File>, steps: seq<Step>, n: nat)
    requires n <= |steps| && NeverDrops(cfg, corpus, steps, n)
    ensures NumberedFrom(Run(cfg, corpus, steps, n).chunks, 0) && DistinctOrdinals(Run(cfg, corpus, steps, n).chunks)
  {
    var chunks := Run(cfg, corpus, steps, n).chunks;
    RunStaysNumbered(cfg, corpus, steps, n);
    NumberedIsDistinct(chunks);
  }

  // ----- a history that repeats an ordinal -----

  predicate OnePassage(cfg: Settings, f: File) {
    |cfg.split(f.text)| == 1
  }

  /** A file of one passage appends one chunk, numbered by its place. */
  lemma AddsOne(cfg: Settings, before: Lists, f: File, version: nat)
    requires OnePassage(cfg, f)
    ensures var chunks := AddFile(cfg, before, f, version).chunks;
            && |chunks| == |before.chunks| + 1 && chunks[..|before.chunks|] == before.chunks
            && chunks[|before.chunks|].docId == f.path && chunks[|before.chunks|].ordinal == |before.chunks| + 1
  {
    DocChunkAt(cfg, f, |before.chunks| + 1, version, 0);
  }

  lemma TwoBuilt(cfg: Settings, a: File, b: File, chunks: seq<Chunk>)
    requires OnePassage(cfg, a) && OnePassage(cfg, b) && chunks == FullBuild(cfg, [a, b]).chunks
    ensures |chunks| == 2 && chunks[0].docId == a.path && chunks[1].docId == b.path && chunks[1].ordinal == 2
  {
    var none, files := Lists([], []), [a, b];
    var first := AddFile(cfg, none, a, 1);
    assert AddFiles(cfg, none, files, map[], 0) == none;
    assert AddFiles(cfg, none, files, map[], 1) == first;
    AddsOne(cfg, none, a, 1);
    AddsOne(cfg, first, b, 1);
    assert chunks[0] == chunks[..1][0];
  }

  lemma OnlyNewChanges(cfg: Settings, a: File, b: File, c: File, full: IndexData)
    requires DistinctPaths([a, b]) && DistinctPaths([b, c]) && a.path != c.path && full == FullBuild(cfg, [a, b])
    ensures ChangedFiles(full, [b, c], {}) == [c]
    ensures IsIndexOf(cfg, [a, b], full)
  {
    var corpus, next, latest := [a, b], [b, c], PreviousLatest(full);
    FullIsIndex(cfg, corpus);
    PreviousLatestIs(cfg, corpus, full);
    assert HasHistory(cfg, Lists(full.docs, full.chunks), corpus[1]);
    HistoryGroups(cfg, b, full.docs);
    PathsHave(corpus, 2, c.path);
    DistinctAt(next, 2, 0, 1);
    NothingBefore(cfg, corpus, full, c.path);
    assert Changed(next, latest, {}, 0) == [];
    assert Changed(next, latest, {}, 1) == [];
  }

  lemma PathsOf(b: File, c: File)
    ensures Paths([c], 1) == {c.path} && Paths([b, c], 2) == {b.path, c.path}
  {
    assert Paths([c], 0) == {} && Paths([b, c], 0) == {} && Paths([b, c], 1) == {b.path};
  }

  lemma KeepsSecond(chunks: seq<Chunk>, paths: set<string>, changed: set<string>)
    requires |chunks| == 2 && chunks[0].docId !in paths && chunks[1].docId in paths && chunks[1].docId !in changed
    ensures KeptChunks(chunks, paths, changed, 2) == [chunks[1]]
  {
    assert KeptChunks(chunks, paths, changed, 0) == [];
    assert KeptChunks(chunks, paths, changed, 1) == [];
  }

  lemma DroppedThenAdded(cfg: Settings, a: File, b: File, c: File)
    requires DistinctPaths([a, b]) && DistinctPaths([b, c]) && a.path != c.path
    requires OnePassage(cfg, a) && OnePassage(cfg, b) && OnePassage(cfg, c)
    ensures var data := Incremental(cfg, FullBuild(cfg, [a, b]), [b, c], {});
            |data.chunks| == 2 && data.chunks[0].ordinal == data.chunks[1].ordinal == 2
  {
    var full, next := FullBuild(cfg, [a, b]), [b, c];
    var latest, base := PreviousLatest(full), Carried(full, next, {});
    TwoBuilt(cfg, a, b, full.chunks);
    OnlyNewChanges(cfg, a, b, c, full);
    PathsOf(b, c);
    DistinctAt([a, b], 2, 0, 1);
    DistinctAt(next, 2, 0, 1);
    KeepsSecond(full.chunks, {b.path, c.path}, {c.path});
    assert base.chunks == [full.chunks[1]];
    IncrementalIsVersioned(cfg, [a, b], full, next, {});
    AddsOne(cfg, base, c, NextVersion(latest, c.path));
    OneAdded(cfg, base, c, latest);
    assert base.chunks[0] == Versioned(cfg, full, next, {}).chunks[..1][0];
  }

  lemma OneAdded(cfg: Settings, base: Lists, c: File, latest: map<string, Latest>)
    ensures AddFiles(cfg, base, [c], latest, 1) == AddFile(cfg, base, c, NextVersion(latest, c.path))
  {
    assert AddFiles(cfg, base, [c], latest, 0) == base;
  }

  /** Ordinals repeat under any settings: index two documents of one passage each, drop the first
      and add a third, and both chunks of the index have ordinal 2. */
  lemma OrdinalsCanRepeat(chunkSize: int, overlap: int, lateChunking: bool, contextualPrefix: bool)
    ensures var cfg := StructureAwareSettings(chunkSize, overlap, lateChunking, contextualPrefix);
            var a, b, c := File("a", ShortText()), File("b", ShortText()), File("c", ShortText());
            var chunks := Incremental(cfg, FullBuild(cfg, [a, b]), [b, c], {}).chunks;
            |chunks| == 2 && chunks[0].ordinal == chunks[1].ordinal == 2
  {
    var cfg := StructureAwareSettings(chunkSize, overlap, lateChunking, contextualPrefix);
    var a, b, c := File("a", ShortText()), File("b", ShortText()), File("c", ShortText());
    OnePair(chunkSize, overlap);
    PathsDiffer(a, b);
    PathsDiffer(b, c);
    assert a.path[0] != c.path[0];
    DroppedThenAdded(cfg, a, b, c);
  }

  lemma PathsDiffer(f: File, g: File)
    requires f.path != g.path
    ensures DistinctPaths([f, g])
  {
    assert Paths([f, g], 0) == {} && Paths([f, g], 1) == {f.path};
  }
}
